/** The registry of zones: the served names in order, the base zones and the dynamic overlays. */
module Registry {
  import opened Dns
  import opened ZoneValue
  import FileZone

  datatype Replica = Replica(names: seq<string>, base: map<string, ZoneVal>, overlay: map<string, ZoneVal>)

  /** Every base zone has its overlay, and both are well kept under their own name. */
  ghost predicate Sound(r: Replica) {
    && r.base.Keys == r.overlay.Keys
    && (forall n :: n in r.base ==> r.base[n].origin == n && Tidy(r.base[n]) && IsFqdn(n))
    && (forall n :: n in r.overlay ==> r.overlay[n].origin == n && Tidy(r.overlay[n]))
  }

  lemma SoundZone(r: Replica, n: string)
    requires Sound(r) && n in r.base
    ensures n in r.overlay && r.base[n].origin == r.overlay[n].origin == n
    ensures Tidy(r.base[n]) && Tidy(r.overlay[n])
  {}

  predicate NoDuplicates(names: seq<string>) {
    forall i, j :: 0 <= i < j < |names| ==> names[i] != names[j]
  }

  /** The registry invariant: the three views name the same zones, each once. */
  ghost predicate Consistent(r: Replica) {
    Sound(r) && NoDuplicates(r.names) && forall n :: n in r.names <==> n in r.base
  }

  lemma ConsistentKeys(r: Replica)
    requires Consistent(r)
    ensures r.base.Keys == r.overlay.Keys
  {}

  function RemoveFirst(names: seq<string>, name: string): seq<string> {
    if names == [] then []
    else if names[0] == name then names[1..]
    else [names[0]] + RemoveFirst(names[1..], name)
  }

  /** The names other than `name`, in their order. */
  function Others(names: seq<string>, name: string): seq<string> {
    if names == [] then []
    else (if names[0] == name then [] else [names[0]]) + Others(names[1..], name)
  }

  function Drop(r: Replica, name: string): Replica {
    Replica(RemoveFirst(r.names, name), r.base - {name}, r.overlay - {name})
  }

  lemma {:induction false} RemoveFirstAt(names: seq<string>, name: string, i: nat)
    requires i < |names| && names[i] == name && name !in names[..i]
    ensures RemoveFirst(names, name) == names[..i] + names[i + 1..]
  {
    if i > 0 {
      assert names[0] == names[..i][0];
      assert forall x :: x in names[1..][..i - 1] ==> x in names[..i];
      RemoveFirstAt(names[1..], name, i - 1);
      assert names[..i] == [names[0]] + names[1..][..i - 1];
    }
  }

  lemma {:induction false} RemoveFirstAbsent(names: seq<string>, name: string)
    requires name !in names
    ensures RemoveFirst(names, name) == names && Others(names, name) == names
  {
    if names != [] {
      RemoveFirstAbsent(names[1..], name);
    }
  }

  lemma {:induction false} OthersHas(names: seq<string>, name: string)
    ensures forall n :: n in Others(names, name) <==> n in names && n != name
  {
    if names != [] {
      OthersHas(names[1..], name);
    }
  }

  /** Stopping at the first match takes the name out of the list exactly when it stands there at
      most once. */
  lemma {:induction false} FirstMatchSuffices(names: seq<string>, name: string)
    ensures RemoveFirst(names, name) == Others(names, name) <==> multiset(names)[name] <= 1
  {
    if names != [] {
      assert names == [names[0]] + names[1..];
      FirstMatchSuffices(names[1..], name);
      if names[0] == name {
        if name in names[1..] {
          OthersHas(names[1..], name);
          assert multiset(names[1..])[name] >= 1;
        } else {
          RemoveFirstAbsent(names[1..], name);
          assert multiset(names[1..])[name] == 0;
        }
      } else {
        assert multiset(names)[name] == multiset(names[1..])[name];
        assert RemoveFirst(names, name) == [names[0]] + RemoveFirst(names[1..], name);
        assert Others(names, name) == [names[0]] + Others(names[1..], name);
        assert RemoveFirst(names, name)[1..] == RemoveFirst(names[1..], name);
        assert Others(names, name)[1..] == Others(names[1..], name);
      }
    }
  }

  lemma {:induction false} OthersNoDuplicates(names: seq<string>, name: string)
    requires NoDuplicates(names)
    ensures NoDuplicates(Others(names, name))
  {
    if names != [] {
      var rest := Others(names[1..], name);
      OthersNoDuplicates(names[1..], name);
      OthersHas(names[1..], name);
      assert forall j :: 0 <= j < |rest| ==> rest[j] in names[1..];
      if names[0] != name {
        assert Others(names, name) == [names[0]] + rest;
      }
    }
  }

  lemma {:induction false} NoDuplicatesOnce(names: seq<string>, name: string)
    requires NoDuplicates(names)
    ensures multiset(names)[name] <= 1
  {
    if names != [] {
      assert names == [names[0]] + names[1..];
      NoDuplicatesOnce(names[1..], name);
    }
  }

  /** Deleting a zone keeps the invariant, and removes its name from all three views and nothing
      else, keeping the order of the other names. */
  lemma DropKeepsConsistent(r: Replica, name: string)
    requires Consistent(r)
    ensures Consistent(Drop(r, name))
    ensures Drop(r, name).names == Others(r.names, name)
    ensures forall n :: n in Drop(r, name).base <==> n in r.base && n != name
    ensures forall n :: n in r.base && n != name ==>
              Drop(r, name).base[n] == r.base[n] && Drop(r, name).overlay[n] == r.overlay[n]
  {
    NoDuplicatesOnce(r.names, name);
    FirstMatchSuffices(r.names, name);
    OthersHas(r.names, name);
    OthersNoDuplicates(r.names, name);
  }

  /** The two zone objects of one name and what they stand for. */
  datatype Pair = Pair(name: string, z: FileZone.Zone, dz: FileZone.Zone, base: ZoneVal, overlay: ZoneVal)

  /** No zone or SOA object serves twice: each knows its zone, and the two zones of one name share
      nothing. */
  ghost predicate ShowsPair(p: Pair)
    reads p.z, p.dz, p.z.soa, p.dz.soa
  {
    && p.z.origin == p.dz.origin == p.name && p.z != p.dz
    && (p.z.soa != null ==> p.z.soa.home == p.name && p.z.soa != p.dz.soa)
    && (p.dz.soa != null ==> p.dz.soa.home == p.name)
    && p.z.Is(p.base) && p.dz.Is(p.overlay)
  }

  /** A pair stays as it is shown while its objects do. */
  twostate lemma PairKept(p: Pair)
    requires old(ShowsPair(p))
    requires unchanged(p.z) && unchanged(p.dz)
    requires p.z.soa != null ==> unchanged(p.z.soa)
    requires p.dz.soa != null ==> unchanged(p.dz.soa)
    ensures ShowsPair(p)
  {}

  lemma NewPair(p: Pair)
    requires p.z.origin == p.dz.origin == p.name && p.z != p.dz
    requires p.z.soa != null ==> p.z.soa.home == p.name && p.z.soa != p.dz.soa
    requires p.dz.soa != null ==> p.dz.soa.home == p.name
    requires p.z.Value() == p.base && p.dz.Value() == p.overlay
    ensures ShowsPair(p)
  {}

  lemma PairParts(p: Pair)
    requires ShowsPair(p)
    ensures p.z.origin == p.dz.origin == p.name && p.z != p.dz
    ensures p.z.soa != null ==> p.z.soa.home == p.name && p.z.soa != p.dz.soa
    ensures p.dz.soa != null ==> p.dz.soa.home == p.name
    ensures p.z.Value() == p.base && p.dz.Value() == p.overlay
  {}

  lemma AddKeepsConsistent(r: Replica, n: string, v: ZoneVal)
    requires Consistent(r) && n !in r.base && IsFqdn(n) && Tidy(v) && v.origin == n
    ensures Consistent(Replica(r.names + [n], r.base[n := v], r.overlay[n := EmptyZone(n)]))
  {
    hide Tidy, IsFqdn;
    EmptyTidy(n);
  }

  lemma EmptyTidy(n: string)
    ensures Tidy(EmptyZone(n)) && EmptyZone(n).origin == n
  {}

  lemma ReplaceKeepsConsistent(r: Replica, n: string, v: ZoneVal)
    requires Consistent(r) && n in r.base && Tidy(v) && v.origin == n
    ensures Consistent(r.(base := r.base[n := v]))
  {
    hide Tidy, IsFqdn;
  }

  lemma NewValues(m: map<string, FileZone.Zone>, n: string, zone: FileZone.Zone)
    ensures m[n := zone].Values <= m.Values + {zone}
  {}

  /** The pairs of a registry, and the one that was added, stay as they are shown. */
  twostate lemma PairsKept(added: (Zones, string, FileZone.Zone, FileZone.Zone, Replica))
    requires var (zones, n, parsed, dynamic, r) := added;
             && old(zones.Shows(r)) && n !in r.base
             && old(ShowsPair(Pair(n, parsed, dynamic, parsed.Value(), dynamic.Value())))
             && zones.z == old(zones.z)[n := parsed] && zones.dynamicZones == old(zones.dynamicZones)[n := dynamic]
             && zones.names == old(zones.names) + [n]
             && unchanged(parsed, dynamic, old(zones.z.Values), old(zones.dynamicZones.Values), old(zones.Soas()))
             && (parsed.soa != null ==> unchanged(parsed.soa)) && (dynamic.soa != null ==> unchanged(dynamic.soa))
    ensures var (zones, n, parsed, dynamic, r) := added;
            zones.Shows(Replica(r.names + [n], r.base[n := parsed.Value()], r.overlay[n := dynamic.Value()]))
  {
    hide ShowsPair;
    var (zones, n, parsed, dynamic, r) := added;
    var base, overlay := r.base[n := parsed.Value()], r.overlay[n := dynamic.Value()];
    forall m | m in zones.z
      ensures ShowsPair(Pair(m, zones.z[m], zones.dynamicZones[m], base[m], overlay[m]))
    {
      PairKept(Pair(m, zones.z[m], zones.dynamicZones[m], base[m], overlay[m]));
    }
  }

  class Zones {
    var z: map<string, FileZone.Zone>
    var names: seq<string>
    var dynamicZones: map<string, FileZone.Zone>

    constructor ()
      ensures Shows(Replica([], map[], map[]))
      ensures z == map[] && names == [] && dynamicZones == map[]
    {
      z, names, dynamicZones := map[], [], map[];
    }

    /** The SOA objects below the registry. */
    ghost function Soas(): set<FileZone.SoaRecord>
      reads this, z.Values, dynamicZones.Values
    {
      (set n | n in z && z[n].soa != null :: z[n].soa as FileZone.SoaRecord)
      + (set n | n in dynamicZones && dynamicZones[n].soa != null :: dynamicZones[n].soa as FileZone.SoaRecord)
    }

    /** What the registry stands for. */
    ghost predicate Shows(r: Replica)
      reads this, z.Values, dynamicZones.Values, Soas()
    {
      && r.names == names
      && r.base.Keys == z.Keys == dynamicZones.Keys == r.overlay.Keys
      && forall n :: n in z ==> ShowsPair(Pair(n, z[n], dynamicZones[n], r.base[n], r.overlay[n]))
    }

    /** The registry stands for the same as long as its objects do not change. */
    twostate lemma StillShows(r: Replica)
      requires old(Shows(r)) && unchanged(this)
      requires unchanged(z.Values) && unchanged(dynamicZones.Values) && unchanged(Soas())
      ensures Shows(r)
    {}

    lemma ShownNames(r: Replica)
      requires Shows(r)
      ensures names == r.names && z.Keys == dynamicZones.Keys == r.base.Keys == r.overlay.Keys
    {}

    lemma ShownZones(r: Replica, n: string)
      requires Shows(r) && n in r.base
      ensures n in z && n in dynamicZones && n in r.overlay
      ensures ShowsPair(Pair(n, z[n], dynamicZones[n], r.base[n], r.overlay[n]))
      ensures z[n].Value() == r.base[n] && dynamicZones[n].Value() == r.overlay[n]
    {}

    lemma ZonesApart(r: Replica, n: string, m: string)
      requires Shows(r) && n in r.base && m in r.base
      ensures z[m] != dynamicZones[n]
      ensures m != n ==> dynamicZones[m] != dynamicZones[n]
    {
      assert ShowsPair(Pair(n, z[n], dynamicZones[n], r.base[n], r.overlay[n]));
      assert ShowsPair(Pair(m, z[m], dynamicZones[m], r.base[m], r.overlay[m]));
    }

    lemma SoasApart(r: Replica, n: string, m: string)
      requires Shows(r) && n in r.base && m in r.base && z[n].soa != null
      ensures dynamicZones[m].soa != z[n].soa
      ensures m != n ==> z[m].soa != z[n].soa
    {
      assert ShowsPair(Pair(n, z[n], dynamicZones[n], r.base[n], r.overlay[n]));
      assert ShowsPair(Pair(m, z[m], dynamicZones[m], r.base[m], r.overlay[m]));
    }

    method DeleteZone(name: string, ghost r: Replica)
      requires Shows(r)
      modifies this
      ensures Shows(Drop(r, name))
    {
      hide ShowsPair;
      z, dynamicZones := z - {name}, dynamicZones - {name};
      RemoveName(name);
      forall n | n in z
        ensures ShowsPair(Pair(n, z[n], dynamicZones[n], r.base[n], r.overlay[n]))
      {
        PairKept(Pair(n, z[n], dynamicZones[n], r.base[n], r.overlay[n]));
      }
    }

    /** A new zone starts with an empty overlay. */
    method AddZone(n: string, parsed: FileZone.Zone, ghost r: Replica)
      requires Shows(r) && n !in r.base
      requires parsed.origin == n && (parsed.soa != null ==> parsed.soa.home == n)
      modifies this
      ensures fresh(dynamicZones.Values - old(dynamicZones.Values))
      ensures Shows(Replica(r.names + [n], r.base[n := parsed.Value()], r.overlay[n := EmptyZone(n)]))
    {
      hide ShowsPair, Shows;
      var dynamic := new FileZone.Zone(n);
      StillShows(r);
      NewPair(Pair(n, parsed, dynamic, parsed.Value(), EmptyZone(n)));
      AddPair(n, parsed, dynamic, r);
    }

    method AddPair(n: string, parsed: FileZone.Zone, dynamic: FileZone.Zone, ghost r: Replica)
      requires Shows(r) && n !in r.base
      requires ShowsPair(Pair(n, parsed, dynamic, parsed.Value(), dynamic.Value()))
      modifies this
      ensures dynamicZones.Values <= old(dynamicZones.Values) + {dynamic}
      ensures Shows(Replica(r.names + [n], r.base[n := parsed.Value()], r.overlay[n := dynamic.Value()]))
    {
      hide ShowsPair, Soas;
      NewValues(dynamicZones, n, dynamic);
      z, dynamicZones, names := z[n := parsed], dynamicZones[n := dynamic], names + [n];
      PairsKept((this, n, parsed, dynamic, r));
    }

    lemma ReplacementPair(n: string, parsed: FileZone.Zone, r: Replica)
      requires Shows(r) && n in r.base
      requires parsed.origin == n && (parsed.soa != null ==> parsed.soa.home == n)
      requires parsed !in dynamicZones.Values && (parsed.soa != null ==> parsed.soa !in Soas())
      ensures ShowsPair(Pair(n, parsed, dynamicZones[n], parsed.Value(), r.overlay[n]))
    {
      ShownZones(r, n);
      assert dynamicZones[n] in dynamicZones.Values;
      assert dynamicZones[n].soa != null ==> dynamicZones[n].soa in Soas();
    }

    /** A known zone keeps its overlay. */
    method ReplaceZone(n: string, parsed: FileZone.Zone, ghost r: Replica)
      requires Shows(r) && n in r.base
      requires parsed.origin == n && (parsed.soa != null ==> parsed.soa.home == n)
      requires parsed !in dynamicZones.Values && (parsed.soa != null ==> parsed.soa !in Soas())
      modifies this`z
      ensures Shows(r.(base := r.base[n := parsed.Value()]))
    {
      hide ShowsPair, Soas;
      ghost var after := r.base[n := parsed.Value()];
      ReplacementPair(n, parsed, r);
      z := z[n := parsed];
      forall m | m in z
        ensures ShowsPair(Pair(m, z[m], dynamicZones[m], after[m], r.overlay[m]))
      {
        PairKept(Pair(m, z[m], dynamicZones[m], after[m], r.overlay[m]));
      }
    }

    /** Persisted record texts are read and inserted into the overlay of `n`, one after the other; a
        text that does not parse is skipped. */
    method ReplayTexts(n: string, texts: seq<Entry>, ghost r: Replica)
      requires Shows(r) && n in r.base
      modifies dynamicZones[n]
      ensures Shows(r.(overlay := r.overlay[n := PutAll(r.overlay[n], Parsed(texts))]))
    {
      hide ShowsPair;
      ghost var after := r.overlay[n := PutAll(r.overlay[n], Parsed(texts))];
      var dz := dynamicZones[n];
      ShownZones(r, n);
      PairParts(Pair(n, z[n], dz, r.base[n], r.overlay[n]));
      forall m | m in z
        ensures z[m] != dz && (m != n ==> dynamicZones[m] != dz)
      {
        ZonesApart(r, n, m);
      }
      FileZone.InsertTexts(dz, texts);
      NewPair(Pair(n, z[n], dz, r.base[n], after[n]));
      forall m | m in z
        ensures ShowsPair(Pair(m, z[m], dynamicZones[m], r.base[m], after[m]))
      {
        if m != n {
          PairKept(Pair(m, z[m], dynamicZones[m], r.base[m], r.overlay[m]));
        }
      }
    }

    method RemoveName(name: string)
      modifies this`names
      ensures names == RemoveFirst(old(names), name)
    {
      for i := 0 to |names|
        invariant names == old(names) && name !in names[..i]
      {
        if names[i] == name {
          RemoveFirstAt(names, name, i);
          names := names[..i] + names[i + 1..];
          return;
        }
      }
      assert names[..|names|] == names;
      RemoveFirstAbsent(names, name);
    }
  }
}
