/** The library's zone object, as far as the plugin relies on it. The apex holds a reference to an
    SOA object, which `Copy` shares; that sharing is what the update handler uses. */
module FileZone {
  import opened Wrappers
  import opened Dns
  import opened ZoneValue

  class SoaRecord {
    var rr: SoaRR
    ghost const home: string  // the origin of the zone it was read for

    constructor (rr: SoaRR, ghost home: string)
      ensures this.rr == rr && this.home == home
    {
      this.rr := rr;
      this.home := home;
    }
  }

  function Flatten(elems: seq<seq<RR>>): seq<RR> {
    if elems == [] then [] else Flatten(elems[..|elems| - 1]) + elems[|elems| - 1]
  }

  lemma FlattenSnoc(elems: seq<seq<RR>>, e: seq<RR>)
    ensures Flatten(elems + [e]) == Flatten(elems) + e
  {
    assert (elems + [e])[..|elems|] == elems;
  }

  lemma {:induction false} InFlatten(elems: seq<seq<RR>>, i: nat, j: nat)
    requires i < |elems| && j < |elems[i]|
    ensures elems[i][j] in Flatten(elems)
  {
    if i < |elems| - 1 {
      InFlatten(elems[..|elems| - 1], i, j);
    }
  }

  lemma PutAllSnoc(v: ZoneVal, s: seq<RR>, rr: RR)
    ensures PutAll(v, s + [rr]) == Put(PutAll(v, s), rr)
  {
    assert (s + [rr])[..|s|] == s;
  }

  lemma {:induction false} FiledLands(rrs: seq<RR>, k: Key, origin: string, j: Key)
    requires Filed(rrs, k, origin)
    ensures Landing(rrs, origin, j) == if j == k then rrs else []
  {
    if rrs != [] {
      FiledLands(rrs[..|rrs| - 1], k, origin, j);
      assert rrs == rrs[..|rrs| - 1] + [rrs[|rrs| - 1]];
    }
  }

  /** `s` lists every key of `v` but those in `rest`. */
  ghost predicate ListsBut(s: seq<RR>, v: ZoneVal, rest: set<Key>) {
    && (forall i :: 0 <= i < |s| ==> Lands(s[i], v.origin) && Norm(s[i]) == s[i])
    && (forall k: Key :: Landing(s, v.origin, k) == if k in rest then [] else Get(v.tree, k))
  }

  lemma ListOneMore(s: seq<RR>, v: ZoneVal, rest: set<Key>, k: Key)
    requires Tidy(v) && ListsBut(s, v, rest) && k in rest && k in v.tree
    ensures ListsBut(s + v.tree[k], v, rest - {k})
  {
    hide Landing, Norm, KeyOf, AtApex, Accepts;
    forall j: Key
      ensures Landing(s + v.tree[k], v.origin, j) == if j in rest - {k} then [] else Get(v.tree, j)
    {
      LandingSplit(s, v.tree[k], v.origin, j);
      FiledLands(v.tree[k], k, v.origin, j);
    }
  }

  class Zone {
    const origin: string
    var soa: SoaRecord?
    var ns: seq<RR>
    var tree: Tree

    function Value(): ZoneVal
      reads this, soa
    {
      ZoneVal(origin, if soa == null then None else Some(soa.rr), ns, tree)
    }

    /** `Value() == v`, field by field. */
    ghost predicate Is(v: ZoneVal)
      reads this, soa
    {
      && v.origin == origin && v.ns == ns && v.tree == tree
      && (if soa == null then v.soa.None? else v.soa.Some? && v.soa.value == soa.rr)
    }

    constructor (origin: string)
      ensures Value() == EmptyZone(origin) && soa == null
    {
      this.origin := origin;
      soa, ns, tree := null, [], map[];
    }

    /** A refused record is reported and nothing changes. */
    method Insert(rr: RR) returns (ok: bool)
      modifies this
      ensures ok <==> Accepts(rr)
      ensures Value() == Put(old(Value()), rr)
      ensures soa == old(soa) || (rr.data.SOA? && fresh(soa) && soa.home == origin)
    {
      ok := Accepts(rr);
      if ok {
        if rr.data.SOA? {
          soa := new SoaRecord(Norm(rr), origin);
        } else if AtApex(rr, origin) {
          ns := ns + [Norm(rr)];
        } else {
          tree := tree[KeyOf(rr) := Get(tree, KeyOf(rr)) + [Norm(rr)]];
        }
      }
    }

    /** Inserting an SOA object that already exists stores the reference. */
    method InsertSoa(record: SoaRecord)
      modifies this
      ensures soa == record && ns == old(ns) && tree == old(tree)
    {
      soa := record;
    }

    method Delete(rr: RR)
      modifies this
      ensures Value() == Remove(old(Value()), rr) && soa == old(soa)
    {
      var left := Kept(Get(tree, KeyOf(rr)), rr.data);
      tree := if left == [] then tree - {KeyOf(rr)} else tree[KeyOf(rr) := left];
    }

    /** The tree's elements, in an order the library does not fix. */
    method All() returns (elems: seq<seq<RR>>)
      requires Tidy(Value())
      ensures Lists(Flatten(elems), Value())
      ensures elems == [] <==> tree == map[]
      ensures forall i, j :: 0 <= i < |elems| && 0 <= j < |elems[i]| ==> Lands(elems[i][j], origin)
    {
      hide Lands, Norm;
      elems := [];
      var rest := tree.Keys;
      while rest != {}
        invariant rest <= tree.Keys
        invariant ListsBut(Flatten(elems), Value(), rest)
        invariant elems == [] <==> rest == tree.Keys
        decreases rest
      {
        var k :| k in rest;
        FlattenSnoc(elems, tree[k]);
        ListOneMore(Flatten(elems), Value(), rest, k);
        elems := elems + [tree[k]];
        rest := rest - {k};
      }
      assert tree.Keys == {} <==> tree == map[];
      forall i, j | 0 <= i < |elems| && 0 <= j < |elems[i]|
        ensures Lands(elems[i][j], origin)
      {
        InFlatten(elems, i, j);
      }
    }

    /** The same origin and apex, by reference, and an empty tree. */
    method Copy() returns (z: Zone)
      ensures fresh(z) && z.origin == origin
      ensures z.soa == soa && z.ns == ns && z.tree == map[]
    {
      z := new Zone(origin);
      z.soa, z.ns := soa, ns;
    }
  }

  method Parse(text: seq<Entry>, origin: string) returns (z: Zone?)
    ensures ParseZone(text, origin) == if z == null then None else Some(z.Value())
    ensures z != null ==> fresh(z) && z.origin == origin && (z.soa != null ==> fresh(z.soa) && z.soa.home == origin)
  {
    var zone := new Zone(origin);
    for i := 0 to |text|
      invariant fresh(zone) && (zone.soa != null ==> fresh(zone.soa) && zone.soa.home == origin)
      invariant ReadableTo(text, i)
      invariant zone.Value() == ReadTo(text, i, origin)
    {
      if text[i].Malformed? {
        return null;
      }
      var ok := zone.Insert(Qualify(text[i].rr, origin));
      if !ok {
        return null;
      }
    }
    z := zone;
  }

  /** Insert what the texts read back as, in order. */
  method InsertTexts(zone: Zone, texts: seq<Entry>)
    modifies zone
    ensures zone.Value() == PutAll(old(zone.Value()), Parsed(texts))
    ensures zone.soa == old(zone.soa) || (zone.soa != null && fresh(zone.soa) && zone.soa.home == zone.origin)
  {
    ghost var start := zone.Value();
    for i := 0 to |texts|
      invariant zone.Value() == PutAll(start, Parsed(texts[..i]))
      invariant zone.soa == old(zone.soa) || (zone.soa != null && fresh(zone.soa) && zone.soa.home == zone.origin)
    {
      assert texts[..i + 1][..i] == texts[..i];
      if texts[i].Rendered? {
        PutAllSnoc(start, Parsed(texts[..i]), texts[i].rr);
        var ok := zone.Insert(texts[i].rr);
      } else {
        assert Parsed(texts[..i + 1]) == Parsed(texts[..i]);
      }
    }
    assert texts[..|texts|] == texts;
  }
}
