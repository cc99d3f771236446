/** Cold start: the zones of every watched namespace are loaded and their persisted records replayed. */
module Startup {
  import FileZone
  import opened Wrappers
  import opened Dns
  import opened ZoneValue
  import opened Registry
  import opened Cluster

  /** What listing one namespace gives. */
  datatype Listing = Listed(items: seq<ZoneObject>) | ListFailed

  function RegisterOne(r: Replica, obj: ZoneObject): Replica {
    var n := Fqdn(obj.name);
    if n in r.base then r
    else match ParseZone(obj.text, n)
      case None => r
      case Some(v) => Replica(r.names + [n], r.base[n := v], r.overlay[n := EmptyZone(n)])
  }

  function RegisterAll(r: Replica, items: seq<ZoneObject>): Replica {
    if items == [] then r else RegisterOne(RegisterAll(r, items[..|items| - 1]), items[|items| - 1])
  }

  function ReplayOne(r: Replica, obj: ZoneObject): Replica {
    var n := Fqdn(obj.name);
    if n in r.base && n in r.overlay
    then r.(overlay := r.overlay[n := PutAll(r.overlay[n], Parsed(obj.status.dynamicRRs))])
    else r
  }

  function ReplayAll(r: Replica, items: seq<ZoneObject>): Replica {
    if items == [] then r else ReplayOne(ReplayAll(r, items[..|items| - 1]), items[|items| - 1])
  }

  /** Namespace after namespace: first every object of it is registered, then every status replayed. */
  function Load(lists: seq<seq<ZoneObject>>): Replica {
    if lists == [] then Replica([], map[], map[])
    else
      var items := lists[|lists| - 1];
      ReplayAll(RegisterAll(Load(lists[..|lists| - 1]), items), items)
  }

  lemma RegisterOneConsistent(r: Replica, obj: ZoneObject)
    requires Consistent(r)
    ensures Consistent(RegisterOne(r, obj))
  {
    var n := Fqdn(obj.name);
    if n !in r.base && ParseZone(obj.text, n).Some? {
      ParseZoneTidy(obj.text, n);
      AddKeepsConsistent(r, n, ParseZone(obj.text, n).value);
    }
  }

  lemma ReplayOneConsistent(r: Replica, obj: ZoneObject)
    requires Consistent(r)
    ensures Consistent(ReplayOne(r, obj))
  {
    var n := Fqdn(obj.name);
    if n in r.base {
      PutAllTidy(r.overlay[n], Parsed(obj.status.dynamicRRs));
    }
  }

  lemma {:induction false} RegisterAllConsistent(r: Replica, items: seq<ZoneObject>)
    requires Consistent(r)
    ensures Consistent(RegisterAll(r, items))
  {
    if items != [] {
      RegisterAllConsistent(r, items[..|items| - 1]);
      RegisterOneConsistent(RegisterAll(r, items[..|items| - 1]), items[|items| - 1]);
    }
  }

  lemma {:induction false} ReplayAllConsistent(r: Replica, items: seq<ZoneObject>)
    requires Consistent(r)
    ensures Consistent(ReplayAll(r, items))
  {
    if items != [] {
      ReplayAllConsistent(r, items[..|items| - 1]);
      ReplayOneConsistent(ReplayAll(r, items[..|items| - 1]), items[|items| - 1]);
    }
  }

  /** The registry invariant holds after every cold start. */
  lemma {:induction false} LoadConsistent(lists: seq<seq<ZoneObject>>)
    ensures Consistent(Load(lists))
  {
    if lists != [] {
      var front, items := lists[..|lists| - 1], lists[|lists| - 1];
      LoadConsistent(front);
      RegisterAllConsistent(Load(front), items);
      ReplayAllConsistent(RegisterAll(Load(front), items), items);
    }
  }

  /** The zone of the first object called `n` whose text parses. */
  function FirstParsed(items: seq<ZoneObject>, n: string): Option<ZoneVal> {
    if items == [] then None
    else if Fqdn(items[0].name) == n && ParseZone(items[0].text, n).Some? then ParseZone(items[0].text, n)
    else FirstParsed(items[1..], n)
  }

  /** The persisted records of all objects called `n`, in order. */
  function StatusOf(items: seq<ZoneObject>, n: string): seq<RR> {
    if items == [] then []
    else
      var last := items[|items| - 1];
      StatusOf(items[..|items| - 1], n) + if Fqdn(last.name) == n then Parsed(last.status.dynamicRRs) else []
  }

  function StatusFrom(lists: seq<seq<ZoneObject>>, n: string): seq<RR> {
    if lists == [] then [] else StatusFrom(lists[..|lists| - 1], n) + StatusOf(lists[|lists| - 1], n)
  }

  lemma {:induction false} FirstParsedSnoc(items: seq<ZoneObject>, obj: ZoneObject, n: string)
    ensures FirstParsed(items + [obj], n)
         == if FirstParsed(items, n).Some? then FirstParsed(items, n) else FirstParsed([obj], n)
  {
    if items != [] {
      assert (items + [obj])[1..] == items[1..] + [obj];
      FirstParsedSnoc(items[1..], obj, n);
    }
  }

  /** Registering a namespace leaves known names alone and gives a new name the zone of its first
      object that parses, with an empty overlay. */
  lemma {:induction false} RegisterAllFor(r: Replica, items: seq<ZoneObject>, n: string)
    ensures var q := RegisterAll(r, items);
            if n in r.base then n in q.base && q.base[n] == r.base[n]
                             && (n in r.overlay ==> n in q.overlay && q.overlay[n] == r.overlay[n])
            else if FirstParsed(items, n).Some? then
              n in q.base && q.base[n] == FirstParsed(items, n).value
              && n in q.overlay && q.overlay[n] == EmptyZone(n)
            else n !in q.base
  {
    if items != [] {
      var front, last := items[..|items| - 1], items[|items| - 1];
      assert items == front + [last];
      RegisterAllFor(r, front, n);
      FirstParsedSnoc(front, last, n);
    }
  }

  lemma {:induction false} ReplayAllFor(r: Replica, items: seq<ZoneObject>, n: string)
    requires r.base.Keys == r.overlay.Keys
    ensures var q := ReplayAll(r, items);
            && q.base == r.base && q.overlay.Keys == r.overlay.Keys
            && (n in r.base ==> q.overlay[n] == PutAll(r.overlay[n], StatusOf(items, n)))
  {
    if items != [] {
      var front, last := items[..|items| - 1], items[|items| - 1];
      ReplayAllFor(r, front, n);
      if n in r.base {
        if Fqdn(last.name) == n {
          PutAllSplit(r.overlay[n], StatusOf(front, n), Parsed(last.status.dynamicRRs));
        } else {
          assert StatusOf(items, n) == StatusOf(front, n);
        }
      }
    }
  }

  /** A name none of whose objects parses is not registered. */
  lemma {:induction false} NeverParsed(lists: seq<seq<ZoneObject>>, n: string)
    requires forall j :: 0 <= j < |lists| ==> FirstParsed(lists[j], n) == None
    ensures n !in Load(lists).base
  {
    if lists != [] {
      var front, items := lists[..|lists| - 1], lists[|lists| - 1];
      NeverParsed(front, n);
      LoadConsistent(front);
      RegisterAllConsistent(Load(front), items);
      RegisterAllFor(Load(front), items, n);
      ReplayAllFor(RegisterAll(Load(front), items), items, n);
    }
  }

  /** The first namespace in which `n` parses gives its base zone, and its overlay is the fold of the
      persisted records of every object called `n` from that namespace onward. Statuses in earlier
      namespaces contribute nothing. */
  lemma {:induction false} LoadedFrom(lists: seq<seq<ZoneObject>>, n: string, i: nat)
    requires i < |lists| && FirstParsed(lists[i], n).Some?
    requires forall j :: 0 <= j < i ==> FirstParsed(lists[j], n) == None
    ensures n in Load(lists).base && n in Load(lists).overlay
    ensures Load(lists).base[n] == FirstParsed(lists[i], n).value
    ensures Load(lists).overlay[n] == PutAll(EmptyZone(n), StatusFrom(lists[i..], n))
    decreases |lists|
  {
    hide Consistent, Sound, PutAll, ParseZone, RegisterAll, ReplayAll, StatusOf, FirstParsed;
    var last := |lists| - 1;
    var front, items := lists[..last], lists[last];
    LoadConsistent(front);
    RegisterAllConsistent(Load(front), items);
    ConsistentKeys(RegisterAll(Load(front), items));
    ConsistentKeys(Load(front));
    RegisterAllFor(Load(front), items, n);
    ReplayAllFor(RegisterAll(Load(front), items), items, n);
    assert lists[i..][..|lists[i..]| - 1] == lists[i..last];
    if i == last {
      NeverParsed(front, n);
      assert StatusFrom(lists[i..], n) == StatusOf(items, n);
    } else {
      LoadedFrom(front, n, i);
      assert front[i..] == lists[i..last];
      PutAllSplit(EmptyZone(n), StatusFrom(front[i..], n), StatusOf(items, n));
    }
  }

  function Items(lists: seq<Listing>): seq<seq<ZoneObject>>
    requires forall i :: 0 <= i < |lists| ==> lists[i].Listed?
  {
    seq(|lists|, i requires 0 <= i < |lists| => lists[i].items)
  }

  /** The loading loops. A namespace that cannot be listed fails the start. */
  method Initialize(lists: seq<Listing>) returns (zones: Zones?, ghost r: Replica)
    ensures zones == null <==> exists i :: 0 <= i < |lists| && lists[i].ListFailed?
    ensures zones != null ==> fresh(zones) && zones.Shows(r) && r == Load(Items(lists))
  {
    r := Load([]);
    var loaded := new Zones();
    for i := 0 to |lists|
      invariant forall j :: 0 <= j < i ==> lists[j].Listed?
      invariant fresh(loaded) && fresh(loaded.dynamicZones.Values)
      invariant loaded.Shows(r) && r == Load(Items(lists[..i]))
    {
      if lists[i].ListFailed? {
        return null, r;
      }
      r := LoadNamespace(loaded, lists[i].items, r);
      assert Items(lists[..i + 1])[..i] == Items(lists[..i]);
    }
    assert lists[..|lists|] == lists;
    zones := loaded;
  }

  /** Two passes over the objects of a namespace: register them all, then replay their statuses. */
  method LoadNamespace(loaded: Zones, items: seq<ZoneObject>, ghost r: Replica) returns (ghost after: Replica)
    requires loaded.Shows(r)
    modifies loaded, loaded.dynamicZones.Values
    ensures fresh(loaded.dynamicZones.Values - old(loaded.dynamicZones.Values))
    ensures loaded.Shows(after) && after == ReplayAll(RegisterAll(r, items), items)
  {
    hide Zones.Shows, RegisterOne, ReplayOne;
    after := r;
    for i := 0 to |items|
      invariant fresh(loaded.dynamicZones.Values - old(loaded.dynamicZones.Values))
      invariant loaded.Shows(after) && after == RegisterAll(r, items[..i])
    {
      assert items[..i + 1][..i] == items[..i];
      after := RegisterObject(loaded, items[i], after);
    }
    assert items[..|items|] == items;
    ghost var registered := after;
    for i := 0 to |items|
      invariant fresh(loaded.dynamicZones.Values - old(loaded.dynamicZones.Values))
      invariant loaded.Shows(after) && after == ReplayAll(registered, items[..i])
    {
      assert items[..i + 1][..i] == items[..i];
      after := ReplayObject(loaded, items[i], after);
    }
  }

  method RegisterObject(loaded: Zones, obj: ZoneObject, ghost r: Replica) returns (ghost after: Replica)
    requires loaded.Shows(r)
    modifies loaded
    ensures fresh(loaded.dynamicZones.Values - old(loaded.dynamicZones.Values))
    ensures loaded.Shows(after) && after == RegisterOne(r, obj)
  {
    hide Zones.Shows, ShowsPair, ReadTo, ReadableTo;
    loaded.ShownNames(r);
    after := RegisterOne(r, obj);
    var n := Fqdn(obj.name);
    if n !in loaded.z {
      var parsed := FileZone.Parse(obj.text, n);
      loaded.StillShows(r);
      if parsed != null {
        loaded.AddZone(n, parsed, r);
      }
    }
  }

  method ReplayObject(loaded: Zones, obj: ZoneObject, ghost r: Replica) returns (ghost after: Replica)
    requires loaded.Shows(r)
    modifies loaded.dynamicZones.Values
    ensures loaded.Shows(after) && after == ReplayOne(r, obj)
  {
    hide ShowsPair;
    after := ReplayOne(r, obj);
    var n := Fqdn(obj.name);
    if n in loaded.z {
      loaded.ReplayTexts(n, obj.status.dynamicRRs, r);
    }
  }
}
