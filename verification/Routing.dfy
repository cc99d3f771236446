/** Choosing the zone for a query name: the longest registered name that the query name lies under. */
module Routing {
  import opened Dns
  import opened Registry

  /** How many backslashes stand directly before position `i`. */
  function Slashes(s: string, i: nat): nat
    requires i <= |s|
  {
    if i == 0 || s[i - 1] != '\\' then 0 else 1 + Slashes(s, i - 1)
  }

  /** `child` is `parent` or ends in it after a dot that separates labels. */
  predicate IsSubDomain(parent: string, child: string) {
    || parent == "."
    || parent == child
    || (|parent| < |child|
        && child[|child| - |parent|..] == parent
        && child[|child| - |parent| - 1] == '.'
        && Slashes(child, |child| - |parent| - 1) % 2 == 0)
  }

  function Route(names: seq<string>, qname: string): string {
    if names == [] then ""
    else
      var best := Route(names[..|names| - 1], qname);
      var last := names[|names| - 1];
      if IsSubDomain(last, qname) && |last| > |best| then last else best
  }

  /** The longest of `names` above `qname`; the empty string when there is none. */
  ghost predicate LongestMatch(names: seq<string>, qname: string, m: string) {
    && (m != "" ==> m in names && IsSubDomain(m, qname))
    && forall n :: n in names && IsSubDomain(n, qname) ==> |n| <= |m|
  }

  lemma {:induction false} RouteMatches(names: seq<string>, qname: string)
    ensures LongestMatch(names, qname, Route(names, qname))
  {
    if names != [] {
      RouteMatches(names[..|names| - 1], qname);
      assert names == names[..|names| - 1] + [names[|names| - 1]];
    }
  }

  /** A character after `l` is escaped: an odd number of backslashes stands at its end. */
  ghost predicate EscapesNext(l: string) {
    exists u, v :: l == u + v && OnlySlashes(v) && |v| % 2 == 1 && (u == "" || u[|u| - 1] != '\\')
  }

  predicate OnlySlashes(v: string) {
    forall i :: 0 <= i < |v| ==> v[i] == '\\'
  }

  lemma {:induction false} SlashesStand(s: string, i: nat)
    requires i <= |s|
    ensures Slashes(s, i) <= i
    ensures forall j :: i - Slashes(s, i) <= j < i ==> s[j] == '\\'
    ensures Slashes(s, i) < i ==> s[i - Slashes(s, i) - 1] != '\\'
  {
    if i > 0 && s[i - 1] == '\\' {
      SlashesStand(s, i - 1);
      assert Slashes(s, i) == 1 + Slashes(s, i - 1);
      hide Slashes;
    }
  }

  lemma {:induction false} SlashesCounted(s: string, u: string, v: string)
    requires u + v <= s && OnlySlashes(v) && (u == "" || u[|u| - 1] != '\\')
    ensures Slashes(s, |u + v|) == |v|
    decreases |v|
  {
    var i := |u + v|;
    assert i > 0 ==> s[i - 1] == (u + v)[i - 1];
    if v != "" {
      assert u + v[..|v| - 1] == s[..i - 1];
      SlashesCounted(s, u, v[..|v| - 1]);
    }
  }

  lemma EscapedBySlashes(s: string, i: nat)
    requires i <= |s| && Slashes(s, i) % 2 == 1
    ensures EscapesNext(s[..i])
  {
    SlashesStand(s, i);
    var n := Slashes(s, i);
    hide Slashes;
    var u, v := s[..i - n], s[i - n..i];
    assert s[..i] == u + v && OnlySlashes(v) && |v| % 2 == 1;
  }

  lemma EscapesBySlashes(s: string, i: nat)
    requires i <= |s|
    ensures EscapesNext(s[..i]) <==> Slashes(s, i) % 2 == 1
  {
    if Slashes(s, i) % 2 == 1 {
      EscapedBySlashes(s, i);
    }
    hide Slashes;
    if EscapesNext(s[..i]) {
      var u, v :| s[..i] == u + v && OnlySlashes(v) && |v| % 2 == 1 && (u == "" || u[|u| - 1] != '\\');
      SlashesCounted(s, u, v);
    }
  }

  /** `q` is the name `z` or a name below it, and everything lies under the root. */
  ghost predicate LiesUnder(z: string, q: string) {
    z == "." || z == q || exists l :: q == l + "." + z && !EscapesNext(l)
  }

  lemma SubDomainMeaning(z: string, q: string)
    ensures IsSubDomain(z, q) <==> LiesUnder(z, q)
  {
    if |z| < |q| {
      var i := |q| - |z| - 1;
      EscapesBySlashes(q, i);
      assert q[|q| - |z|..] == z && q[i] == '.' ==> q == q[..i] + "." + z;
    }
    if l :| q == l + "." + z && !EscapesNext(l) {
      assert l == q[..|q| - |z| - 1] && q[|q| - |z|..] == z;
    }
  }

  /** The chosen zone, on the names themselves. It is registered and is the root, the query name, or what
      follows a dot of it that is no escaped one. No registered name of that kind is longer. So a name
      below a zone goes to that zone or to a longer one, and the root takes whatever is left. */
  lemma RouteIsLongest(names: seq<string>, qname: string)
    ensures var m := Route(names, qname);
            && (m != "" ==>
                  m in names && (m == "." || m == qname || exists l :: qname == l + "." + m && !EscapesNext(l)))
            && (forall z, l :: z in names && qname == l + "." + z && !EscapesNext(l) ==> |z| <= |m|)
            && (qname in names ==> |qname| <= |m|)
            && ("." in names ==> m != "")
  {
    var m := Route(names, qname);
    RouteMatches(names, qname);
    SubDomainMeaning(m, qname);
    forall z, l | z in names && qname == l + "." + z && !EscapesNext(l)
      ensures |z| <= |m|
    {
      SubDomainMeaning(z, qname);
    }
    SubDomainMeaning(qname, qname);
    SubDomainMeaning(".", qname);
  }

  lemma SameLengthSameName(a: string, b: string, qname: string)
    requires IsFqdn(a) && IsFqdn(b) && |a| == |b|
    requires IsSubDomain(a, qname) && IsSubDomain(b, qname)
    ensures a == b
  {
    if |a| == 1 {
      assert a == "." && b == ".";
    } else {
      assert a == qname[|qname| - |a|..] && b == qname[|qname| - |b|..];
    }
  }

  ghost predicate AllFqdn(names: seq<string>) {
    forall n :: n in names ==> IsFqdn(n)
  }

  lemma LongestMatchUnique(names: seq<string>, qname: string, m: string)
    requires AllFqdn(names) && LongestMatch(names, qname, m)
    ensures m == Route(names, qname)
  {
    RouteMatches(names, qname);
    var r := Route(names, qname);
    if m != "" && r != "" {
      SameLengthSameName(m, r, qname);
    }
  }

  /** The name of a zone is routed to that zone. */
  lemma RoutesToItself(r: Replica, n: string)
    requires Consistent(r) && n in r.base
    ensures Route(r.names, n) == n
  {
    LongestMatchUnique(r.names, n, n);
  }

  /** The choice depends on which names are registered, not on their order. */
  lemma RouteIgnoresOrder(a: seq<string>, b: seq<string>, qname: string)
    requires AllFqdn(a)
    requires forall n :: n in a <==> n in b
    ensures Route(a, qname) == Route(b, qname)
  {
    RouteMatches(a, qname);
    LongestMatchUnique(b, qname, Route(a, qname));
  }

  lemma {:induction false} SlashesOfSuffix(s: string, from: nat, i: nat)
    requires from <= i <= |s|
    requires from > 0 ==> s[from - 1] == '.'
    ensures Slashes(s[from..], i - from) == Slashes(s, i)
  {
    if i > from {
      SlashesOfSuffix(s, from, i - 1);
    }
  }

  lemma ShorterIsAncestor(p: string, n: string, qname: string)
    requires IsFqdn(p) && |p| < |n|
    requires IsSubDomain(p, qname) && IsSubDomain(n, qname)
    ensures IsSubDomain(p, n)
  {
    if p != "." && n != qname {
      var from := |qname| - |n|;
      assert qname[from..] == n;
      assert qname[from..][|n| - |p|..] == qname[|qname| - |p|..];
      SlashesOfSuffix(qname, from, |qname| - |p| - 1);
    }
  }

  lemma IsSubDomainTransitive(a: string, b: string, c: string)
    requires IsFqdn(a) && IsSubDomain(a, b) && IsSubDomain(b, c)
    ensures IsSubDomain(a, c)
  {
    if a != "." && b != "." && a != b && b != c {
      var from := |c| - |b|;
      assert c[from..] == b;
      assert c[|c| - |a|..] == b[|b| - |a|..];
      SlashesOfSuffix(c, from, |c| - |a| - 1);
    }
  }

  /** Deleting a zone re-routes only the names that were routed to it. Those go to one of its remaining
      ancestors, the longest, whenever it has one, and to no zone otherwise. */
  lemma RouteAfterDelete(r: Replica, gone: string, qname: string)
    requires Consistent(r)
    ensures var before, after := Route(r.names, qname), Route(Drop(r, gone).names, qname);
            && (before != gone ==> after == before)
            && (before == gone ==>
                  && (after != "" ==> after != gone && after in r.names && LiesUnder(after, gone))
                  && forall p :: p in r.names && p != gone && LiesUnder(p, gone) ==> |p| <= |after|)
  {
    DropKeepsConsistent(r, gone);
    OthersHas(r.names, gone);
    var left := Drop(r, gone).names;
    var before, after := Route(r.names, qname), Route(left, qname);
    RouteMatches(r.names, qname);
    RouteMatches(left, qname);
    if before != gone {
      LongestMatchUnique(left, qname, before);
    } else {
      if after != "" && |after| == |before| {
        SameLengthSameName(after, before, qname);
      } else if after != "" {
        ShorterIsAncestor(after, before, qname);
      }
      SubDomainMeaning(after, gone);
      forall p | p in r.names && p != gone && LiesUnder(p, gone)
        ensures |p| <= |after|
      {
        SubDomainMeaning(p, gone);
        IsSubDomainTransitive(p, gone, qname);
      }
    }
  }

  /** A routed name always has both zones, so a merge for it never fails. */
  lemma RoutedZoneExists(r: Replica, qname: string)
    requires Consistent(r) && Route(r.names, qname) != ""
    ensures Route(r.names, qname) in r.base && Route(r.names, qname) in r.overlay
  {
    RouteMatches(r.names, qname);
  }
}
