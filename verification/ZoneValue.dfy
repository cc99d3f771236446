/** The contents of a zone as a value: an apex, and for every (owner, type) a sequence of records.
    This is the stated contract of the library's zone type, on which everything else rests. */
module ZoneValue {
  import opened Wrappers
  import opened Dns

  datatype Key = Key(owner: string, rtype: u16)
  type Tree = map<Key, seq<RR>>

  datatype ZoneVal = ZoneVal(origin: string, soa: Option<SoaRR>, ns: seq<RR>, tree: Tree)

  function EmptyZone(origin: string): ZoneVal {
    ZoneVal(origin, None, [], map[])
  }

  function KeyOf(rr: RR): Key {
    Key(Lower(rr.name), rr.RType())
  }

  /** A record is stored under its lower-cased owner name. */
  function Norm(rr: RR): RR {
    rr.(name := Lower(rr.name))
  }

  function Get(t: Tree, k: Key): seq<RR> {
    if k in t then t[k] else []
  }

  predicate AtApex(rr: RR, origin: string) {
    rr.data.SOA? || (rr.data.NS? && Lower(rr.name) == origin)
  }

  /** Inserting `rr` changes the tree. */
  predicate Lands(rr: RR, origin: string) {
    Accepts(rr) && !AtApex(rr, origin)
  }

  function Put(v: ZoneVal, rr: RR): ZoneVal {
    if !Accepts(rr) then v
    else if rr.data.SOA? then v.(soa := Some(Norm(rr)))
    else if AtApex(rr, v.origin) then v.(ns := v.ns + [Norm(rr)])
    else v.(tree := v.tree[KeyOf(rr) := Get(v.tree, KeyOf(rr)) + [Norm(rr)]])
  }

  function PutAll(v: ZoneVal, s: seq<RR>): ZoneVal {
    if s == [] then v else Put(PutAll(v, s[..|s| - 1]), s[|s| - 1])
  }

  /** The records of `s` that land under `k`, in order. */
  function Landing(s: seq<RR>, origin: string, k: Key): seq<RR> {
    if s == [] then []
    else
      var r := s[|s| - 1];
      Landing(s[..|s| - 1], origin, k) + if Lands(r, origin) && KeyOf(r) == k then [Norm(r)] else []
  }

  function WithoutData(rrs: seq<RR>, data: RData): seq<RR> {
    if rrs == [] then []
    else WithoutData(rrs[..|rrs| - 1], data) + if rrs[|rrs| - 1].data == data then [] else [rrs[|rrs| - 1]]
  }

  /** The position of the first record with the data; the length when there is none. */
  function FirstWith(rrs: seq<RR>, data: RData): (p: nat)
    ensures p <= |rrs| && (p < |rrs| ==> rrs[p].data == data)
    ensures forall i :: 0 <= i < p ==> rrs[i].data != data
  {
    if rrs == [] || rrs[0].data == data then 0 else 1 + FirstWith(rrs[1..], data)
  }

  /** What stays of the records of a key when a record with the data is removed there. */
  function Kept(rrs: seq<RR>, data: RData): seq<RR> {
    match DELETION
    case WholeSet => []
    case AllEqual => WithoutData(rrs, data)
    case FirstEqual =>
      var p := FirstWith(rrs, data);
      if p < |rrs| then rrs[..p] + rrs[p + 1..] else rrs
  }

  function Left(v: ZoneVal, rr: RR): seq<RR> {
    Kept(Get(v.tree, KeyOf(rr)), rr.data)
  }

  function Remove(v: ZoneVal, rr: RR): ZoneVal {
    var left := Left(v, rr);
    v.(tree := if left == [] then v.tree - {KeyOf(rr)} else v.tree[KeyOf(rr) := left])
  }

  /** What every reachable zone satisfies: no empty key, and each record under its own key. */
  ghost predicate Tidy(v: ZoneVal) {
    forall k :: k in v.tree ==> v.tree[k] != [] && Filed(v.tree[k], k, v.origin)
  }

  ghost predicate Filed(rrs: seq<RR>, k: Key, origin: string) {
    forall i :: 0 <= i < |rrs| ==> Lands(rrs[i], origin) && KeyOf(rrs[i]) == k && Norm(rrs[i]) == rrs[i]
  }

  /** `s` is one of the orders in which the library may list the tree of `v`: keys in any order,
      even interleaved, and the records of one key in their own order. */
  ghost predicate Lists(s: seq<RR>, v: ZoneVal) {
    && (forall i :: 0 <= i < |s| ==> Lands(s[i], v.origin) && Norm(s[i]) == s[i])
    && (forall k: Key :: Landing(s, v.origin, k) == Get(v.tree, k))
  }

  lemma NormTwice(rr: RR)
    ensures Norm(Norm(rr)) == Norm(rr) && KeyOf(Norm(rr)) == KeyOf(rr)
    ensures forall origin :: Lands(Norm(rr), origin) == Lands(rr, origin)
  {
    LowerTwice(rr.name);
  }

  lemma PutTidy(v: ZoneVal, rr: RR)
    requires Tidy(v)
    ensures Tidy(Put(v, rr)) && Put(v, rr).origin == v.origin
  {
    NormTwice(rr);
  }

  lemma WithoutDataKeeps(rrs: seq<RR>, data: RData)
    ensures forall r :: r in WithoutData(rrs, data) <==> r in rrs && r.data != data
  {
    if rrs != [] {
      assert rrs == rrs[..|rrs| - 1] + [rrs[|rrs| - 1]];
    }
  }

  lemma KeptOfThem(rrs: seq<RR>, data: RData)
    ensures forall r :: r in Kept(rrs, data) ==> r in rrs
  {
    WithoutDataKeeps(rrs, data);
  }

  lemma RemoveTidy(v: ZoneVal, rr: RR)
    requires Tidy(v)
    ensures Tidy(Remove(v, rr)) && Remove(v, rr).origin == v.origin
  {
    KeptOfThem(Get(v.tree, KeyOf(rr)), rr.data);
    hide Kept;
    var left := Left(v, rr);
    forall i | 0 <= i < |left|
      ensures Lands(left[i], v.origin) && KeyOf(left[i]) == KeyOf(rr) && Norm(left[i]) == left[i]
    {
      assert left[i] in left;
    }
  }

  ghost predicate NoneWith(rrs: seq<RR>, data: RData) {
    forall i :: 0 <= i < |rrs| ==> rrs[i].data != data
  }

  lemma {:induction false} WithoutDataNone(rrs: seq<RR>, data: RData)
    requires NoneWith(rrs, data)
    ensures WithoutData(rrs, data) == rrs
  {
    if rrs != [] {
      WithoutDataNone(rrs[..|rrs| - 1], data);
    }
  }

  lemma {:induction false} WithoutDataNoLonger(rrs: seq<RR>, data: RData)
    ensures |WithoutData(rrs, data)| <= |rrs|
  {
    if rrs != [] {
      WithoutDataNoLonger(rrs[..|rrs| - 1], data);
    }
  }

  lemma {:induction false} WithoutDataShorter(rrs: seq<RR>, data: RData, p: nat)
    requires p < |rrs| && rrs[p].data == data
    ensures |WithoutData(rrs, data)| < |rrs|
    decreases |rrs|
  {
    if p < |rrs| - 1 {
      WithoutDataShorter(rrs[..|rrs| - 1], data, p);
    } else {
      WithoutDataNoLonger(rrs[..p], data);
    }
  }

  /** What removing a record may leave of the records of its key, for each reading of the library. */
  ghost predicate TakesAway(was: seq<RR>, data: RData, left: seq<RR>) {
    match DELETION
    case WholeSet => left == []
    case AllEqual => forall r :: r in left <==> r in was && r.data != data
    case FirstEqual =>
      if NoneWith(was, data) then left == was
      else exists p :: 0 <= p < |was| && was[p].data == data && NoneWith(was[..p], data)
                       && left == was[..p] + was[p + 1..]
  }

  /** Removing a record touches its own key only, and there takes away the whole set, all records with
      its data or the first of them, whichever the library does. */
  lemma RemoveEffect(v: ZoneVal, rr: RR, k: Key)
    ensures Remove(v, rr).(tree := v.tree) == v
    ensures k != KeyOf(rr) ==> Get(Remove(v, rr).tree, k) == Get(v.tree, k)
    ensures TakesAway(Get(v.tree, KeyOf(rr)), rr.data, Get(Remove(v, rr).tree, KeyOf(rr)))
  {
    var was := Get(v.tree, KeyOf(rr));
    WithoutDataKeeps(was, rr.data);
    var p := FirstWith(was, rr.data);
    assert p < |was| ==> was[p].data == rr.data && NoneWith(was[..p], rr.data);
    assert Get(Remove(v, rr).tree, KeyOf(rr)) == Kept(was, rr.data);
  }

  /** Taking out the record at `p` and adding `n` at the end changes nothing only when all records from
      `p` on are `n`. */
  lemma {:induction false} ShiftsToItself(was: seq<RR>, p: nat, n: RR, j: nat)
    requires p <= j < |was| && was[..p] + was[p + 1..] + [n] == was
    ensures was[j] == n
    decreases |was| - j
  {
    var shifted := was[..p] + was[p + 1..] + [n];
    if j == |was| - 1 {
      assert shifted[j] == n;
    } else {
      assert shifted[j] == was[j + 1];
      ShiftsToItself(was, p, n, j + 1);
    }
  }

  /** The exact condition for taking away the data of `n` right after adding `n` to change nothing. */
  ghost predicate NothingElseLost(was: seq<RR>, n: RR) {
    match DELETION
    case WholeSet => was == []
    case AllEqual => NoneWith(was, n.data)
    case FirstEqual => forall i, j :: 0 <= i <= j < |was| && was[i].data == n.data ==> was[j] == n
  }

  lemma FirstUndoes(was: seq<RR>, n: RR)
    requires DELETION == FirstEqual
    ensures Kept(was + [n], n.data) == was <==> NothingElseLost(was, n)
  {
    var all := was + [n];
    var p := FirstWith(all, n.data);
    assert p <= |was| by {
      assert all[|was|] == n;
    }
    assert forall i :: 0 <= i < |was| ==> all[i] == was[i];
    if p == |was| {
      assert all[..p] + all[p + 1..] == was;
    } else {
      assert all[..p] + all[p + 1..] == was[..p] + was[p + 1..] + [n];
      if Kept(all, n.data) == was {
        forall i, j | 0 <= i <= j < |was| && was[i].data == n.data
          ensures was[j] == n
        {
          ShiftsToItself(was, p, n, j);
        }
      }
      if NothingElseLost(was, n) {
        assert forall j :: p <= j < |was| ==> was[j] == n;
        assert was[..p] + was[p + 1..] + [n] == was;
      }
    }
  }

  lemma UndoesWhen(was: seq<RR>, n: RR)
    ensures Kept(was + [n], n.data) == was <==> NothingElseLost(was, n)
  {
    if DELETION == FirstEqual {
      FirstUndoes(was, n);
    } else {
      assert (was + [n])[..|was|] == was;
      assert WithoutData(was + [n], n.data) == WithoutData(was, n.data);
      if NoneWith(was, n.data) {
        WithoutDataNone(was, n.data);
      } else {
        var p :| 0 <= p < |was| && was[p].data == n.data;
        WithoutDataShorter(was, n.data, p);
      }
    }
  }

  /** Removing a record right after inserting it undoes the insertion exactly when nothing else is lost
      with it: the key was empty; or its data was not there; or, when only the first equal record is
      taken out, all records from there on are the very one that was inserted. */
  lemma RemoveUndoesPutWhen(v: ZoneVal, rr: RR)
    requires Tidy(v) && Lands(rr, v.origin)
    ensures Remove(Put(v, rr), rr) == v <==> NothingElseLost(Get(v.tree, KeyOf(rr)), Norm(rr))
  {
    var k, was := KeyOf(rr), Get(v.tree, KeyOf(rr));
    assert Get(Put(v, rr).tree, k) == was + [Norm(rr)];
    UndoesWhen(was, Norm(rr));
    hide Kept, NothingElseLost;
    var after := Remove(Put(v, rr), rr);
    assert after.tree - {k} == v.tree - {k};
    assert after == v <==> Get(after.tree, k) == was by {
      if Get(after.tree, k) == was {
        SameOutsideAndAt(after.tree, v.tree, k);
      }
    }
  }

  lemma SameOutsideAndAt(a: Tree, b: Tree, k: Key)
    requires a - {k} == b - {k} && Get(a, k) == Get(b, k)
    requires k in a ==> a[k] != []
    requires k in b ==> b[k] != []
    ensures a == b
  {
    forall j: Key
      ensures j in a <==> j in b
      ensures j in a ==> a[j] == b[j]
    {
      if j != k {
        assert j in a <==> j in a - {k};
        assert j in b <==> j in b - {k};
      }
    }
  }

  lemma {:induction false} PutAllTidy(v: ZoneVal, s: seq<RR>)
    requires Tidy(v)
    ensures Tidy(PutAll(v, s)) && PutAll(v, s).origin == v.origin
  {
    if s != [] {
      PutAllTidy(v, s[..|s| - 1]);
      PutTidy(PutAll(v, s[..|s| - 1]), s[|s| - 1]);
    }
  }

  /** Inserting a sequence appends, under every key, the records that land there. */
  lemma {:induction false} PutAllAppends(v: ZoneVal, s: seq<RR>, k: Key)
    ensures PutAll(v, s).origin == v.origin
    ensures Get(PutAll(v, s).tree, k) == Get(v.tree, k) + Landing(s, v.origin, k)
  {
    if s != [] {
      PutAllAppends(v, s[..|s| - 1], k);
    }
  }

  lemma {:induction false} PutAllSplit(v: ZoneVal, a: seq<RR>, b: seq<RR>)
    ensures PutAll(v, a + b) == PutAll(PutAll(v, a), b)
  {
    if b == [] {
      assert a + b == a;
    } else {
      assert (a + b)[..|a + b| - 1] == a + b[..|b| - 1];
      PutAllSplit(v, a, b[..|b| - 1]);
    }
  }

  lemma {:induction false} LandingSplit(a: seq<RR>, b: seq<RR>, origin: string, k: Key)
    ensures Landing(a + b, origin, k) == Landing(a, origin, k) + Landing(b, origin, k)
  {
    if b == [] {
      assert a + b == a;
    } else {
      assert (a + b)[..|a + b| - 1] == a + b[..|b| - 1];
      LandingSplit(a, b[..|b| - 1], origin, k);
    }
  }

  lemma {:induction false} InLanding(s: seq<RR>, origin: string, i: nat)
    requires i < |s| && Lands(s[i], origin)
    ensures Norm(s[i]) in Landing(s, origin, KeyOf(s[i]))
  {
    if i < |s| - 1 {
      InLanding(s[..|s| - 1], origin, i);
    }
  }

  /** Records that stay off the apex leave the apex alone. */
  lemma {:induction false} PutAllKeepsApex(v: ZoneVal, s: seq<RR>)
    requires forall i :: 0 <= i < |s| ==> !AtApex(s[i], v.origin)
    ensures PutAll(v, s).soa == v.soa && PutAll(v, s).ns == v.ns && PutAll(v, s).origin == v.origin
  {
    if s != [] {
      PutAllKeepsApex(v, s[..|s| - 1]);
    }
  }

  /** A tree is determined by what lies under each key. */
  lemma SameUnderEachKey(a: ZoneVal, b: ZoneVal)
    requires Tidy(a) && Tidy(b)
    requires forall k: Key :: Get(a.tree, k) == Get(b.tree, k)
    ensures a.tree == b.tree
  {
    forall k: Key
      ensures k in a.tree <==> k in b.tree
      ensures k in a.tree ==> a.tree[k] == b.tree[k]
    {
      assert Get(a.tree, k) == Get(b.tree, k);
    }
  }

  /** Listing an overlay in any order and inserting the list into an empty zone gives it back. */
  lemma Rebuild(v: ZoneVal, s: seq<RR>)
    requires Tidy(v) && v.soa == None && v.ns == []
    requires Lists(s, v)
    ensures PutAll(EmptyZone(v.origin), s) == v
  {
    var e := EmptyZone(v.origin);
    PutAllTidy(e, s);
    PutAllKeepsApex(e, s);
    forall k: Key
      ensures Get(PutAll(e, s).tree, k) == Get(v.tree, k)
    {
      PutAllAppends(e, s, k);
    }
    SameUnderEachKey(PutAll(e, s), v);
  }

  /** The overlay on top of the base zone: the apex is the base's, and under every key the base
      records come first. */
  function Merged(base: ZoneVal, overlay: ZoneVal): ZoneVal {
    base.(tree := map k | k in base.tree.Keys + overlay.tree.Keys :: Get(base.tree, k) + Get(overlay.tree, k))
  }

  lemma MergedUnderEachKey(base: ZoneVal, overlay: ZoneVal, k: Key)
    ensures Get(Merged(base, overlay).tree, k) == Get(base.tree, k) + Get(overlay.tree, k)
  {}

  lemma MergedTidy(base: ZoneVal, overlay: ZoneVal)
    requires Tidy(base) && Tidy(overlay) && base.origin == overlay.origin
    ensures Tidy(Merged(base, overlay))
  {
    var m := Merged(base, overlay);
    forall k | k in m.tree
      ensures m.tree[k] != [] && Filed(m.tree[k], k, m.origin)
    {
      assert m.tree[k] == Get(base.tree, k) + Get(overlay.tree, k);
    }
  }

  lemma InsertedUnderEachKey(base: ZoneVal, overlay: ZoneVal, s: seq<RR>, t: seq<RR>, k: Key)
    requires base.origin == overlay.origin
    requires Lists(s, base) && Lists(t, overlay)
    ensures Get(PutAll(PutAll(base.(tree := map[]), s), t).tree, k) == Get(base.tree, k) + Get(overlay.tree, k)
  {
    var copy := base.(tree := map[]);
    PutAllAppends(copy, s, k);
    PutAllAppends(PutAll(copy, s), t, k);
  }

  /** Copying the base's records and then the overlay's into a fresh zone with the base's apex is
      the merge, in whatever orders the two trees are listed: the apex stays the base's, and under
      every key the base records come first and the overlay's follow. */
  lemma MergeByInsertion(base: ZoneVal, overlay: ZoneVal, s: seq<RR>, t: seq<RR>)
    requires Tidy(base) && Tidy(overlay) && base.origin == overlay.origin
    requires Lists(s, base) && Lists(t, overlay)
    ensures var result := PutAll(PutAll(base.(tree := map[]), s), t);
            && result == Merged(base, overlay) && result.(tree := base.tree) == base
            && forall k: Key :: Get(result.tree, k) == Get(base.tree, k) + Get(overlay.tree, k)
  {
    var copy := base.(tree := map[]);
    var half := PutAll(copy, s);
    var result := PutAll(half, t);
    assert Tidy(result) && result.(tree := map[]) == copy by {
      PutAllTidy(copy, s);
      PutAllTidy(half, t);
      PutAllKeepsApex(copy, s);
      PutAllKeepsApex(half, t);
    }
    MergedTidy(base, overlay);
    forall k: Key
      ensures Get(result.tree, k) == Get(base.tree, k) + Get(overlay.tree, k) == Get(Merged(base, overlay).tree, k)
    {
      InsertedUnderEachKey(base, overlay, s, t, k);
      MergedUnderEachKey(base, overlay, k);
    }
    SameUnderEachKey(result, Merged(base, overlay));
  }

  lemma MergeCommutesUnderKey(base: ZoneVal, overlay: ZoneVal, rr: RR, k: Key)
    requires base.origin == overlay.origin && !AtApex(rr, base.origin)
    ensures Get(Merged(base, Put(overlay, rr)).tree, k) == Get(Put(Merged(base, overlay), rr).tree, k)
  {
    MergedUnderEachKey(base, overlay, k);
    MergedUnderEachKey(base, Put(overlay, rr), k);
    if Accepts(rr) && k == KeyOf(rr) {
      assert Get(base.tree, k) + (Get(overlay.tree, k) + [Norm(rr)])
          == Get(base.tree, k) + Get(overlay.tree, k) + [Norm(rr)];
    }
  }

  /** Inserting into the overlay and merging is merging and inserting. */
  lemma MergeCommutesWithPut(base: ZoneVal, overlay: ZoneVal, rr: RR)
    requires Tidy(base) && Tidy(overlay)
    requires base.origin == overlay.origin && !AtApex(rr, base.origin)
    ensures Merged(base, Put(overlay, rr)) == Put(Merged(base, overlay), rr)
  {
    var l, r := Merged(base, Put(overlay, rr)), Put(Merged(base, overlay), rr);
    assert Tidy(l) && Tidy(r) by {
      PutTidy(overlay, rr);
      MergedTidy(base, overlay);
      MergedTidy(base, Put(overlay, rr));
      PutTidy(Merged(base, overlay), rr);
    }
    assert l.(tree := map[]) == r.(tree := map[]);
    forall k: Key
      ensures Get(l.tree, k) == Get(r.tree, k)
    {
      MergeCommutesUnderKey(base, overlay, rr, k);
    }
    SameUnderEachKey(l, r);
  }

  /** The records that persisted texts read back as; a text that does not parse is skipped. */
  function Parsed(texts: seq<Entry>): seq<RR> {
    if texts == [] then []
    else
      var last := texts[|texts| - 1];
      Parsed(texts[..|texts| - 1]) + if last.Rendered? then [last.rr] else []
  }

  function PrintAll(s: seq<RR>): seq<Entry> {
    seq(|s|, i requires 0 <= i < |s| => Print(s[i]))
  }

  lemma {:induction false} PrintThenParse(s: seq<RR>)
    ensures Parsed(PrintAll(s)) == s
  {
    if s != [] {
      assert PrintAll(s)[..|s| - 1] == PrintAll(s[..|s| - 1]);
      PrintThenParse(s[..|s| - 1]);
    }
  }

  lemma {:induction false} ParsedSplit(a: seq<Entry>, b: seq<Entry>)
    ensures Parsed(a + b) == Parsed(a) + Parsed(b)
  {
    if b == [] {
      assert a + b == a;
    } else {
      assert (a + b)[..|a + b| - 1] == a + b[..|b| - 1];
      ParsedSplit(a, b[..|b| - 1]);
    }
  }

  /** A text that reads back counts as its record, in its place; one that does not is skipped, and the
      texts after it count all the same. */
  lemma UnreadableIsSkipped(a: seq<Entry>, text: Entry, b: seq<Entry>)
    ensures Parsed(a + [text] + b)
         == Parsed(a) + (match text case Rendered(rr) => [rr] case Malformed(_) => []) + Parsed(b)
  {
    ParsedSplit(a + [text], b);
    ParsedSplit(a, [text]);
    assert [text][..0] == [];
  }

  /** The overlay that persisted texts stand for. */
  function Replay(origin: string, texts: seq<Entry>): ZoneVal {
    PutAll(EmptyZone(origin), Parsed(texts))
  }

  /** A zone text is read entry by entry; one bad or refused entry fails the whole text. */
  predicate ReadableTo(text: seq<Entry>, n: nat)
    requires n <= |text|
  {
    forall i :: 0 <= i < n ==> text[i].Rendered? && Accepts(text[i].rr)
  }

  predicate Readable(text: seq<Entry>) {
    ReadableTo(text, |text|)
  }

  function Qualify(rr: RR, origin: string): RR {
    rr.(name := Absolute(rr.name, origin))
  }

  function ReadTo(text: seq<Entry>, n: nat, origin: string): ZoneVal
    requires n <= |text| && ReadableTo(text, n)
  {
    if n == 0 then EmptyZone(origin)
    else Put(ReadTo(text, n - 1, origin), Qualify(text[n - 1].rr, origin))
  }

  function ParseZone(text: seq<Entry>, origin: string): Option<ZoneVal> {
    if Readable(text) then Some(ReadTo(text, |text|, origin)) else None
  }

  lemma {:induction false} ReadToTidy(text: seq<Entry>, n: nat, origin: string)
    requires n <= |text| && ReadableTo(text, n)
    ensures Tidy(ReadTo(text, n, origin)) && ReadTo(text, n, origin).origin == origin
  {
    if n > 0 {
      ReadToTidy(text, n - 1, origin);
      PutTidy(ReadTo(text, n - 1, origin), Qualify(text[n - 1].rr, origin));
    }
  }

  lemma ParseZoneTidy(text: seq<Entry>, origin: string)
    requires ParseZone(text, origin).Some?
    ensures Tidy(ParseZone(text, origin).value) && ParseZone(text, origin).value.origin == origin
  {
    ReadToTidy(text, |text|, origin);
  }
}
