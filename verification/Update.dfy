/** The update section of a dynamic update: what one record does, where the section stops, and the
    nested loop that applies it to the overlay. */
module Update {
  import opened Wrappers
  import opened Dns
  import opened ZoneValue
  import FileZone

  datatype UpdateType = Insert | RemoveRR | RemoveName | RemoveRRSet | Unknown

  function UpdateTypeOf(rr: RR): UpdateType {
    if rr.rclass == CLASS_INET then Insert
    else if rr.rclass == CLASS_NONE then RemoveRR
    else if rr.rclass == CLASS_ANY then if rr.RType() == TYPE_ANY then RemoveName else RemoveRRSet
    else Unknown
  }

  predicate AllowedType(rr: RR) {
    rr.RType() in {TYPE_TXT, TYPE_CNAME, TYPE_A, TYPE_AAAA, TYPE_SRV}
  }

  /** The answer code with which `rr` ends the update, if it does. */
  function Verdict(rr: RR): Option<Rcode> {
    if !AllowedType(rr) then Some(Refused)
    else if !IS_DOMAIN_NAME(rr.name) then None
    else match UpdateTypeOf(rr)
      case Insert => if Accepts(rr) then None else Some(ServerFailure)
      case RemoveRR => None
      case _ => Some(NotImplemented)
  }

  function Apply(v: ZoneVal, rr: RR): ZoneVal {
    if !IS_DOMAIN_NAME(rr.name) then v
    else if UpdateTypeOf(rr).Insert? then Put(v, rr)
    else if UpdateTypeOf(rr).RemoveRR? then Remove(v, rr)
    else v
  }

  function ApplyAll(v: ZoneVal, s: seq<RR>): ZoneVal {
    if s == [] then v else Apply(ApplyAll(v, s[..|s| - 1]), s[|s| - 1])
  }

  predicate HarmlessTo(s: seq<RR>, n: nat)
    requires n <= |s|
  {
    forall i :: 0 <= i < n ==> Verdict(s[i]) == None
  }

  predicate Harmless(s: seq<RR>) {
    HarmlessTo(s, |s|)
  }

  /** The position of the first record that ends the update. */
  function FirstOffence(s: seq<RR>): (n: nat)
    ensures n <= |s| && HarmlessTo(s, n)
    ensures n < |s| ==> Verdict(s[n]) != None
  {
    if s == [] || Verdict(s[0]) != None then 0 else 1 + FirstOffence(s[1..])
  }

  function Times(s: seq<RR>, q: nat): seq<RR> {
    if q == 0 then [] else Times(s, q - 1) + s
  }

  /** The records that the handler gets to apply: the section once for every question, or what
      stands before the first offender. */
  function Processed(section: seq<RR>, questions: nat): seq<RR> {
    if questions == 0 then []
    else if FirstOffence(section) < |section| then section[..FirstOffence(section)]
    else Times(section, questions)
  }

  function Answer(section: seq<RR>, questions: nat): Option<Rcode> {
    if questions == 0 || FirstOffence(section) == |section| then None
    else Verdict(section[FirstOffence(section)])
  }

  lemma FirstOffenceUnique(s: seq<RR>, n: nat)
    requires n <= |s| && HarmlessTo(s, n)
    requires n < |s| ==> Verdict(s[n]) != None
    ensures FirstOffence(s) == n
  {}

  lemma {:induction false} ApplyAllSplit(v: ZoneVal, a: seq<RR>, b: seq<RR>)
    ensures ApplyAll(v, a + b) == ApplyAll(ApplyAll(v, a), b)
  {
    if b == [] {
      assert a + b == a;
    } else {
      assert (a + b)[..|a + b| - 1] == a + b[..|b| - 1];
      ApplyAllSplit(v, a, b[..|b| - 1]);
    }
  }

  lemma {:induction false} TimesHarmless(s: seq<RR>, q: nat)
    requires Harmless(s)
    ensures Harmless(Times(s, q))
  {
    if q > 0 {
      TimesHarmless(s, q - 1);
    }
  }

  lemma {:induction false} TimesCons(s: seq<RR>, q: nat)
    requires q > 0
    ensures Times(s, q) == s + Times(s, q - 1)
  {
    if q > 1 {
      TimesCons(s, q - 1);
    }
  }

  /** Applying the section once for every question, up to the first record that ends the update,
      applies what `Processed` says. */
  lemma ProcessedOfTimes(section: seq<RR>, questions: nat, done: nat)
    requires done <= |Times(section, questions)| && HarmlessTo(Times(section, questions), done)
    requires done < |Times(section, questions)| ==> Verdict(Times(section, questions)[done]).Some?
    ensures Times(section, questions)[..done] == Processed(section, questions)
    ensures Answer(section, questions)
         == if done < |Times(section, questions)| then Verdict(Times(section, questions)[done]) else None
  {
    if questions > 0 {
      var work, f := Times(section, questions), FirstOffence(section);
      hide Verdict;
      TimesCons(section, questions);
      if f < |section| {
        assert work[f] == section[f];
        assert done <= f;
        assert work[done] == section[done];
      } else {
        TimesHarmless(section, questions);
      }
    }
  }

  lemma ProcessedHarmless(section: seq<RR>, questions: nat)
    ensures Harmless(Processed(section, questions))
  {
    if questions > 0 && FirstOffence(section) == |section| {
      TimesHarmless(section, questions);
    }
  }

  /** The first offender decides alone: what stands before it is processed once, and its code is the
      answer, whatever follows it and however many questions there are. Without an offender the whole
      section is processed once for every question. */
  lemma FirstOffenderDecides(before: seq<RR>, offender: RR, rest: seq<RR>, questions: nat)
    requires Harmless(before) && questions > 0
    ensures Verdict(offender).Some? ==>
              Processed(before + [offender] + rest, questions) == before
              && Answer(before + [offender] + rest, questions) == Verdict(offender)
    ensures Processed(before, questions) == Times(before, questions) && Answer(before, questions) == None
  {
    FirstOffenceUnique(before, |before|);
    if Verdict(offender).Some? {
      FirstOffenceUnique(before + [offender] + rest, |before|);
    }
  }

  /** What each class means for a record of an allowed type with a proper name: class IN appends it
      under its key, class NONE takes it away, every other class, ANY included, ends the update. */
  lemma RecordEffect(v: ZoneVal, rr: RR, k: Key)
    ensures Verdict(rr) == Some(Refused) <==> !AllowedType(rr)
    ensures AllowedType(rr) && IS_DOMAIN_NAME(rr.name) ==>
              && (rr.rclass == CLASS_INET && Accepts(rr) ==>
                    Verdict(rr) == None && Get(Apply(v, rr).tree, KeyOf(rr)) == Get(v.tree, KeyOf(rr)) + [Norm(rr)])
              && (rr.rclass == CLASS_INET && !Accepts(rr) ==> Verdict(rr) == Some(ServerFailure) && Apply(v, rr) == v)
              && (rr.rclass == CLASS_NONE ==>
                    Verdict(rr) == None
                    && TakesAway(Get(v.tree, KeyOf(rr)), rr.data, Get(Apply(v, rr).tree, KeyOf(rr))))
              && (rr.rclass !in {CLASS_INET, CLASS_NONE} ==> Verdict(rr) == Some(NotImplemented) && Apply(v, rr) == v)
    ensures AllowedType(rr) && !IS_DOMAIN_NAME(rr.name) ==> Verdict(rr) == None && Apply(v, rr) == v
    ensures k != KeyOf(rr) ==> Get(Apply(v, rr).tree, k) == Get(v.tree, k)
  {
    RemoveEffect(v, rr, k);
  }

  /** The section once for every question, position by position. */
  lemma {:induction false} TimesRepeats(s: seq<RR>, q: nat, j: nat, i: nat)
    requires j < q && i < |s|
    ensures |Times(s, q)| == q * |s| && 0 <= j * |s| + i < q * |s|
    ensures Times(s, q)[j * |s| + i] == s[i]
    decreases q
  {
    TimesLength(s, q);
    TimesLength(s, q - 1);
    assert (q - 1) * |s| + |s| == q * |s|;
    if j < q - 1 {
      TimesRepeats(s, q - 1, j, i);
    }
  }

  lemma {:induction false} TimesLength(s: seq<RR>, q: nat)
    ensures |Times(s, q)| == q * |s|
  {
    if q > 0 {
      TimesLength(s, q - 1);
    }
  }

  lemma TimesOnce(s: seq<RR>)
    ensures Times(s, 1) == s
  {
    assert Times(s, 0) == [] && [] + s == s;
  }

  lemma NextInLine(before: seq<RR>, rr: RR, rest: seq<RR>, questions: nat)
    requires questions > 0 && Answer(before, 1) == None
    ensures Processed(before, 1) == before
    ensures Verdict(rr).Some? ==>
              && Answer(before + [rr] + rest, questions) == Verdict(rr)
              && Processed(before + [rr] + rest, questions) == before
    ensures Verdict(rr) == None ==>
              Answer(before + [rr], 1) == None && Processed(before + [rr], 1) == before + [rr]
  {
    FirstOffenceUnique(before, |before|);
    TimesOnce(before);
    TimesOnce(before + [rr]);
    if Verdict(rr).Some? {
      FirstOffenceUnique(before + [rr] + rest, |before|);
    } else {
      FirstOffenceUnique(before + [rr], |before| + 1);
    }
  }

  lemma ApplyNext(v: ZoneVal, before: seq<RR>, rr: RR)
    ensures ApplyAll(v, before + [rr]) == Apply(ApplyAll(v, before), rr)
  {
    assert (before + [rr])[..|before|] == before;
  }

  lemma EffectByData(was: ZoneVal, rr: RR)
    requires Verdict(rr) == None
    ensures var now, k := Apply(was, rr), Key(Lower(rr.name), rr.RType());
            && now.(tree := was.tree) == was
            && (forall j: Key :: j != k ==> Get(now.tree, j) == Get(was.tree, j))
            && (if !IS_DOMAIN_NAME(rr.name) then now == was
                else if rr.rclass == 1 then Get(now.tree, k) == Get(was.tree, k) + [rr.(name := Lower(rr.name))]
                else TakesAway(Get(was.tree, k), rr.data, Get(now.tree, k)))
  {
    forall j: Key
      ensures j != KeyOf(rr) ==> Get(Apply(was, rr).tree, j) == Get(was.tree, j)
    {
      RecordEffect(was, rr, j);
    }
    RecordEffect(was, rr, KeyOf(rr));
    hide Kept, TakesAway;
  }

  /** The answer that a record calls for, by its data and class alone. */
  function CodeByData(rr: RR): Option<Rcode> {
    var allowed := rr.data.A? || rr.data.AAAA? || rr.data.CNAME? || rr.data.TXT? || rr.data.SRV?
                   || (rr.data.Other? && rr.data.code in {1, 5, 16, 28, 33});
    if !allowed then Some(Refused)
    else if !IS_DOMAIN_NAME(rr.name) then None
    else if rr.rclass == 1 then if rr.RType() in REFUSED_TYPES then Some(ServerFailure) else None
    else if rr.rclass == 254 then None
    else Some(NotImplemented)
  }

  lemma VerdictByData(rr: RR)
    ensures Verdict(rr) == CodeByData(rr)
  {
    TypeCodes(rr);
  }

  lemma NextRecord(v: ZoneVal, before: seq<RR>, rr: RR, rest: seq<RR>, questions: nat)
    requires questions > 0 && Answer(before, 1) == None
    ensures var code := CodeByData(rr);
            var was, now := ApplyAll(v, Processed(before, 1)), ApplyAll(v, Processed(before + [rr], 1));
            var k := Key(Lower(rr.name), rr.RType());
            && (code.Some? ==>
                  && Answer(before + [rr] + rest, questions) == code
                  && Processed(before + [rr] + rest, questions) == before)
            && (code == None ==>
                  && Answer(before + [rr], 1) == None
                  && now.(tree := was.tree) == was
                  && (forall j: Key :: j != k ==> Get(now.tree, j) == Get(was.tree, j))
                  && (if !IS_DOMAIN_NAME(rr.name) then now == was
                      else if rr.rclass == 1 then
                        Get(now.tree, k) == Get(was.tree, k) + [rr.(name := Lower(rr.name))]
                      else TakesAway(Get(was.tree, k), rr.data, Get(now.tree, k))))
  {
    VerdictByData(rr);
    NextInLine(before, rr, rest, questions);
    hide Processed, Answer, ApplyAll, Apply, TakesAway, Verdict, CodeByData;
    if Verdict(rr) == None {
      ApplyNext(v, before, rr);
      EffectByData(ApplyAll(v, before), rr);
    }
  }

  /** What the record next in line does, by its data and class alone, when none before it ended the
      update. An A, AAAA, CNAME, TXT or SRV record with a proper name is appended when it has class IN
      and the library stores it, and is taken away when it has class NONE; with another class, or when
      it cannot be stored, it ends the update. Without a proper name it is passed over. A record of any
      other type ends the update, and nothing after an offender counts. */
  lemma NextRecordByData(v: ZoneVal, before: seq<RR>, rr: RR, rest: seq<RR>, questions: nat)
    requires questions > 0 && Answer(before, 1) == None
    ensures var allowed := rr.data.A? || rr.data.AAAA? || rr.data.CNAME? || rr.data.TXT? || rr.data.SRV?
                           || (rr.data.Other? && rr.data.code in {1, 5, 16, 28, 33});
            var code := if !allowed then Some(Refused)
                        else if !IS_DOMAIN_NAME(rr.name) then None
                        else if rr.rclass == 1 then if rr.RType() in REFUSED_TYPES then Some(ServerFailure) else None
                        else if rr.rclass == 254 then None
                        else Some(NotImplemented);
            var was, now := ApplyAll(v, Processed(before, 1)), ApplyAll(v, Processed(before + [rr], 1));
            var k := Key(Lower(rr.name), rr.RType());
            && (code.Some? ==>
                  && Answer(before + [rr] + rest, questions) == code
                  && Processed(before + [rr] + rest, questions) == before)
            && (code == None ==>
                  && Answer(before + [rr], 1) == None
                  && now.(tree := was.tree) == was
                  && (forall j: Key :: j != k ==> Get(now.tree, j) == Get(was.tree, j))
                  && (if !IS_DOMAIN_NAME(rr.name) then now == was
                      else if rr.rclass == 1 then
                        Get(now.tree, k) == Get(was.tree, k) + [rr.(name := Lower(rr.name))]
                      else TakesAway(Get(was.tree, k), rr.data, Get(now.tree, k))))
  {
    hide Processed, Answer, ApplyAll, Apply, TakesAway, Verdict, Get, Lower;
    NextRecord(v, before, rr, rest, questions);
  }

  lemma {:induction false} ApplyAllTidy(v: ZoneVal, s: seq<RR>)
    requires Tidy(v)
    ensures Tidy(ApplyAll(v, s)) && ApplyAll(v, s).origin == v.origin
  {
    if s != [] {
      var u := ApplyAll(v, s[..|s| - 1]);
      ApplyAllTidy(v, s[..|s| - 1]);
      PutTidy(u, s[|s| - 1]);
      RemoveTidy(u, s[|s| - 1]);
    }
  }

  /** Harmless records never reach the apex. */
  lemma {:induction false} ApplyAllKeepsApex(v: ZoneVal, s: seq<RR>)
    requires forall i :: 0 <= i < |s| ==> AllowedType(s[i])
    ensures ApplyAll(v, s).soa == v.soa && ApplyAll(v, s).ns == v.ns
  {
    if s != [] {
      ApplyAllKeepsApex(v, s[..|s| - 1]);
    }
  }

  /** The records of `s` for key `k`. */
  function ForKey(s: seq<RR>, k: Key): seq<RR> {
    if s == [] then []
    else ForKey(s[..|s| - 1], k) + if KeyOf(s[|s| - 1]) == k then [s[|s| - 1]] else []
  }

  lemma ApplyTouchesOneKey(v: ZoneVal, rr: RR, k: Key)
    requires k != KeyOf(rr)
    ensures Get(Apply(v, rr).tree, k) == Get(v.tree, k)
  {}

  lemma ApplyIsLocal(u: ZoneVal, v: ZoneVal, rr: RR)
    requires u.origin == v.origin && Get(u.tree, KeyOf(rr)) == Get(v.tree, KeyOf(rr))
    ensures Get(Apply(u, rr).tree, KeyOf(rr)) == Get(Apply(v, rr).tree, KeyOf(rr))
  {}

  /** What an update leaves under a key depends on its records for that key alone, in their order. */
  lemma {:induction false} KeysAreIndependent(v: ZoneVal, s: seq<RR>, k: Key)
    ensures ApplyAll(v, s).origin == ApplyAll(v, ForKey(s, k)).origin == v.origin
    ensures Get(ApplyAll(v, s).tree, k) == Get(ApplyAll(v, ForKey(s, k)).tree, k)
  {
    if s != [] {
      var front, last := s[..|s| - 1], s[|s| - 1];
      KeysAreIndependent(v, front, k);
      if KeyOf(last) == k {
        assert (ForKey(front, k) + [last])[..|ForKey(front, k)|] == ForKey(front, k);
        ApplyIsLocal(ApplyAll(v, front), ApplyAll(v, ForKey(front, k)), last);
      } else {
        assert ForKey(s, k) == ForKey(front, k);
        ApplyTouchesOneKey(ApplyAll(v, front), last, k);
      }
    }
  }

  /** An overlay that only ever took in what the handler allows. */
  ghost predicate OnlyAllowed(v: ZoneVal) {
    && v.soa == None && v.ns == []
    && forall k, i :: k in v.tree && 0 <= i < |v.tree[k]| ==> Dynamic(v.tree[k][i])
  }

  predicate Dynamic(rr: RR) {
    AllowedType(rr) && rr.rclass == CLASS_INET
  }

  lemma ApplyOnlyAllowed(v: ZoneVal, rr: RR)
    requires OnlyAllowed(v) && Verdict(rr) == None
    ensures OnlyAllowed(Apply(v, rr))
  {
    var w := Apply(v, rr);
    KeptOfThem(Get(v.tree, KeyOf(rr)), rr.data);
    hide Kept;
    forall k, i | k in w.tree && 0 <= i < |w.tree[k]|
      ensures Dynamic(w.tree[k][i])
    {
      assert w.tree[k][i] in w.tree[k];
    }
  }

  lemma {:induction false} ApplyAllOnlyAllowed(v: ZoneVal, s: seq<RR>)
    requires OnlyAllowed(v) && Harmless(s)
    ensures OnlyAllowed(ApplyAll(v, s))
  {
    if s != [] {
      ApplyAllOnlyAllowed(v, s[..|s| - 1]);
      ApplyOnlyAllowed(ApplyAll(v, s[..|s| - 1]), s[|s| - 1]);
    }
  }

  /** Whether a record that is no offender can change any overlay at all. */
  predicate Effective(rr: RR) {
    IS_DOMAIN_NAME(rr.name) && Accepts(rr)
  }

  lemma FiledTypeStored(rrs: seq<RR>, k: Key, origin: string)
    requires Filed(rrs, k, origin) && rrs != []
    ensures k.rtype !in REFUSED_TYPES
  {
    assert Lands(rrs[0], origin);
  }

  lemma IdleRecord(v: ZoneVal, rr: RR)
    requires Tidy(v) && Verdict(rr) == None && !Effective(rr)
    ensures Apply(v, rr) == v
  {
    if UpdateTypeOf(rr).RemoveRR? && IS_DOMAIN_NAME(rr.name) {
      var k := KeyOf(rr);
      if k in v.tree {
        FiledTypeStored(v.tree[k], k, v.origin);
      }
      assert v.tree - {k} == v.tree;
    }
  }

  lemma {:induction false} IdleRecords(v: ZoneVal, s: seq<RR>)
    requires Tidy(v) && Harmless(s)
    requires forall i :: 0 <= i < |s| ==> !Effective(s[i])
    ensures ApplyAll(v, s) == v
  {
    if s != [] {
      IdleRecords(v, s[..|s| - 1]);
      IdleRecord(v, s[|s| - 1]);
    }
  }

  /** `x` stands in the list at most once, and then in front. */
  ghost predicate AtMostInFront(rrs: seq<RR>, x: RR) {
    forall i :: 0 < i < |rrs| ==> rrs[i] != x
  }

  lemma {:induction false} WithoutDataInFront(rrs: seq<RR>, data: RData, x: RR)
    requires AtMostInFront(rrs, x)
    ensures AtMostInFront(WithoutData(rrs, data), x)
    ensures rrs != [] && rrs[0].data == data ==> x !in WithoutData(rrs, data)
  {
    if rrs != [] {
      WithoutDataInFront(rrs[..|rrs| - 1], data, x);
    }
  }

  lemma KeptInFront(rrs: seq<RR>, data: RData, x: RR)
    requires AtMostInFront(rrs, x)
    ensures AtMostInFront(Kept(rrs, data), x)
    ensures x.data == data ==> x !in Kept(rrs, data)
  {
    WithoutDataInFront(rrs, data, x);
    WithoutDataKeeps(rrs, data);
  }

  /** A record of class NONE is never inserted. */
  lemma {:induction false} StaysInFront(v: ZoneVal, s: seq<RR>, x: RR, k: Key)
    requires Harmless(s) && x.rclass == CLASS_NONE && AtMostInFront(Get(v.tree, k), x)
    ensures AtMostInFront(Get(ApplyAll(v, s).tree, k), x)
  {
    if s != [] {
      var u, last := ApplyAll(v, s[..|s| - 1]), s[|s| - 1];
      StaysInFront(v, s[..|s| - 1], x, k);
      KeptInFront(Get(u.tree, k), last.data, x);
      hide Kept;
      if KeyOf(last) != k {
        ApplyTouchesOneKey(u, last, k);
      }
    }
  }

  lemma EffectiveLast(s: seq<RR>) returns (v: ZoneVal)
    requires s != [] && Harmless(s) && Effective(s[|s| - 1])
    ensures Tidy(v) && ApplyAll(v, s) != v
  {
    var rr := s[|s| - 1];
    var k := KeyOf(rr);
    if UpdateTypeOf(rr).Insert? {
      v := EmptyZone("");
      assert Get(ApplyAll(v, s).tree, k) != Get(v.tree, k);
    } else {
      v := Put(EmptyZone(""), rr);
      PutTidy(EmptyZone(""), rr);
      StaysInFront(v, s[..|s| - 1], Norm(rr), k);
      KeptInFront(Get(ApplyAll(v, s[..|s| - 1]).tree, k), rr.data, Norm(rr));
      assert Norm(rr) in Get(v.tree, k);
      assert Norm(rr) !in Get(ApplyAll(v, s).tree, k);
    }
  }

  lemma {:induction false} EffectiveSomewhere(s: seq<RR>, i: nat) returns (v: ZoneVal)
    requires Harmless(s) && i < |s| && Effective(s[i])
    ensures Tidy(v) && ApplyAll(v, s) != v
    decreases |s|
  {
    if Effective(s[|s| - 1]) {
      v := EffectiveLast(s);
    } else {
      v := EffectiveSomewhere(s[..|s| - 1], i);
      ApplyAllTidy(v, s[..|s| - 1]);
      IdleRecord(ApplyAll(v, s[..|s| - 1]), s[|s| - 1]);
    }
  }

  /** A rejected update is not undone. It leaves every overlay as it was exactly when no record
      before the first offender has a usable name and a type the library stores. */
  lemma RejectionIsAtomicWhen(section: seq<RR>, questions: nat)
    requires Answer(section, questions) != None
    ensures (forall v :: Tidy(v) ==> ApplyAll(v, Processed(section, questions)) == v)
       <==> (forall i :: 0 <= i < FirstOffence(section) ==> !Effective(section[i]))
  {
    var s := Processed(section, questions);
    if forall i :: 0 <= i < FirstOffence(section) ==> !Effective(section[i]) {
      forall v | Tidy(v)
        ensures ApplyAll(v, s) == v
      {
        IdleRecords(v, s);
      }
    } else {
      var i :| 0 <= i < FirstOffence(section) && Effective(section[i]);
      var v := EffectiveSomewhere(s, i);
    }
  }

  /** The nested loop of the handler: once per question, every record of the section in order,
      stopping at the first offender with the records before it applied. */
  method ApplySection(dz: FileZone.Zone, questions: nat, section: seq<RR>) returns (code: Option<Rcode>)
    modifies dz
    ensures dz.Value() == ApplyAll(old(dz.Value()), Processed(section, questions))
    ensures dz.soa == old(dz.soa)
    ensures code == Answer(section, questions)
  {
    hide Remove, KeyOf, AtApex, Norm;
    ghost var start := dz.Value();
    for q := 0 to questions
      invariant q > 0 ==> FirstOffence(section) == |section|
      invariant dz.Value() == ApplyAll(start, Times(section, q)) && dz.soa == old(dz.soa)
    {
      ghost var before := dz.Value();
      for i := 0 to |section|
        invariant HarmlessTo(section, i)
        invariant dz.Value() == ApplyAll(before, section[..i]) && dz.soa == old(dz.soa)
      {
        var rr := section[i];
        assert section[..i + 1][..i] == section[..i] && section[..i + 1][i] == rr;
        if !AllowedType(rr) {
          FirstOffenceUnique(section, i);
          return Some(Refused);
        }
        if IS_DOMAIN_NAME(rr.name) {
          match UpdateTypeOf(rr) {
            case Insert =>
              var ok := dz.Insert(rr);
              if !ok {
                FirstOffenceUnique(section, i);
                return Some(ServerFailure);
              }
            case RemoveRR =>
              dz.Delete(rr);
            case _ =>
              FirstOffenceUnique(section, i);
              return Some(NotImplemented);
          }
        }
      }
      FirstOffenceUnique(section, |section|);
      assert section[..|section|] == section;
      ApplyAllSplit(start, Times(section, q), section);
    }
    code := None;
  }
}
