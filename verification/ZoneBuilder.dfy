/** The record builder: a zone as the user states it, turned into zone-file entries. */
module ZoneBuilder {
  import opened Wrappers
  import opened Dns
  import opened ZoneValue
  import FileZone

  // ---- TXT chunks

  const CHUNK: nat := 255

  function Join(chunks: seq<string>): string {
    if chunks == [] then "" else Join(chunks[..|chunks| - 1]) + chunks[|chunks| - 1]
  }

  /** The chunks make up `s`; all but the last are full, and the last is not. */
  predicate IsSplit(chunks: seq<string>, s: string) {
    && chunks != [] && Join(chunks) == s
    && (forall j :: 0 <= j < |chunks| - 1 ==> |chunks[j]| == CHUNK)
    && |chunks[|chunks| - 1]| < CHUNK
  }

  function Split(s: string): seq<string> {
    if |s| < CHUNK then [s] else [s[..CHUNK]] + Split(s[CHUNK..])
  }

  lemma {:induction false} JoinFull(chunks: seq<string>)
    requires forall j :: 0 <= j < |chunks| ==> |chunks[j]| == CHUNK
    ensures |Join(chunks)| == CHUNK * |chunks|
  {
    if chunks != [] {
      JoinFull(chunks[..|chunks| - 1]);
    }
  }

  /** There are len / 255 + 1 chunks, all full but the last; the last is empty exactly at multiples of
      255. */
  lemma SplitCount(chunks: seq<string>, s: string)
    requires IsSplit(chunks, s)
    ensures |chunks| == |s| / 255 + 1 && |chunks[|chunks| - 1]| == |s| % 255
    ensures forall j :: 0 <= j < |chunks| - 1 ==> |chunks[j]| == 255
  {
    JoinFull(chunks[..|chunks| - 1]);
    var rest := |chunks[|chunks| - 1]|;
    assert |s| == CHUNK * (|chunks| - 1) + rest;
  }

  lemma {:induction false} JoinPrefix(chunks: seq<string>, j: nat)
    requires j <= |chunks|
    ensures |Join(chunks[..j])| <= |Join(chunks)| && Join(chunks[..j]) == Join(chunks)[..|Join(chunks[..j])|]
  {
    if j == |chunks| {
      assert chunks[..j] == chunks;
    } else {
      JoinPrefix(chunks[..|chunks| - 1], j);
      assert chunks[..|chunks| - 1][..j] == chunks[..j];
    }
  }

  /** A string splits in one way only. */
  lemma SplitUnique(a: seq<string>, b: seq<string>, s: string)
    requires IsSplit(a, s) && IsSplit(b, s)
    ensures a == b
  {
    SplitCount(a, s);
    SplitCount(b, s);
    var last := |a| - 1;
    forall j | 0 <= j < last
      ensures a[j] == b[j]
    {
      ChunkAt(a, s, j);
      ChunkAt(b, s, j);
    }
    JoinFull(a[..last]);
    JoinFull(b[..last]);
    assert a[last] == s[CHUNK * last..] && b[last] == s[CHUNK * last..];
  }

  lemma ChunkAt(chunks: seq<string>, s: string, j: nat)
    requires IsSplit(chunks, s) && j < |chunks| - 1
    ensures CHUNK * (j + 1) <= |s| && chunks[j] == s[CHUNK * j..CHUNK * (j + 1)]
  {
    JoinFull(chunks[..j]);
    JoinFull(chunks[..j + 1]);
    JoinPrefix(chunks, j + 1);
    assert chunks[..j + 1][..j] == chunks[..j];
  }

  lemma {:induction false} JoinCons(c: string, chunks: seq<string>)
    ensures Join([c] + chunks) == c + Join(chunks)
  {
    if chunks == [] {
      assert [c] + chunks == [c];
      assert Join([c][..0]) == "";
    } else {
      var front, last := chunks[..|chunks| - 1], chunks[|chunks| - 1];
      JoinCons(c, front);
      assert ([c] + chunks)[..|chunks|] == [c] + front;
      assert Join([c] + chunks) == Join([c] + front) + last;
      assert Join(chunks) == Join(front) + last;
      hide Join;
    }
  }

  lemma {:induction false} SplitIsSplit(s: string)
    ensures IsSplit(Split(s), s)
  {
    if |s| < CHUNK {
      assert [s][..0] == [];
    } else {
      SplitIsSplit(s[CHUNK..]);
      JoinCons(s[..CHUNK], Split(s[CHUNK..]));
      assert s[..CHUNK] + s[CHUNK..] == s;
    }
  }

  /** The index loop. */
  method Split255(s: string) returns (sx: seq<string>)
    ensures IsSplit(sx, s) && |sx| == |s| / 255 + 1
    ensures forall j :: 0 <= j < |sx| ==> |sx[j]| == if j < |sx| - 1 then 255 else |s| % 255
    ensures sx == Split(s)
  {
    if |s| < CHUNK {
      SplitIsSplit(s);
      return [s];
    }
    sx := [];
    var p, i := 0, CHUNK;
    while true
      invariant p <= |s| && i == p + CHUNK
      invariant Join(sx) == s[..p] && forall j :: 0 <= j < |sx| ==> |sx[j]| == CHUNK
      decreases |s| - p
    {
      if i <= |s| {
        assert s[..p] + s[p..i] == s[..i];
        sx := sx + [s[p..i]];
      } else {
        assert s[..p] + s[p..] == s;
        sx := sx + [s[p..]];
        break;
      }
      p, i := p + CHUNK, i + CHUNK;
    }
    SplitCount(sx, s);
    SplitIsSplit(s);
    SplitUnique(sx, Split(s), s);
  }

  // ---- records

  // The IPv4 address that a text stands for, as the library prints it; none when it is no such address.
  const READ_ADDRESS: string -> Option<string>
  // Whether the library escapes a lone `@` when it prints an owner name.
  const ESCAPES_AT: bool

  /** A record as the user states it. */
  datatype Record = Record(name: string, rtype: string, ttl: int, priority: u16, weight: u16, port: u16,
                           target: string, text: string)

  function Cut32(n: int): u32 {
    n % 0x1_0000_0000
  }

  function NewA(name: string, ttl: u32, ip: string): RR {
    RR(name, CLASS_INET, ttl, A(ip))
  }

  /** An owner name as it is printed; escaped, `@` no longer stands for the origin. */
  function Owner(name: string): string {
    if name == "@" && ESCAPES_AT then "\\@" else name
  }

  /** The text of a record, printed under its owner name. */
  function PrintOwned(rr: RR): Entry {
    Print(rr.(name := Owner(rr.name)))
  }

  /** The text of an address record. Without an address it has no data and does not read back. */
  function PrintA(name: string, ttl: u32, ip: Option<string>): Entry {
    if ip == None then Malformed(Owner(name)) else PrintOwned(NewA(name, ttl, ip.value))
  }

  function NewCNAME(name: string, ttl: u32, target: string): RR {
    RR(name, CLASS_INET, ttl, CNAME(Fqdn(target)))
  }

  function NewTXT(name: string, ttl: u32, text: string): RR {
    RR(name, CLASS_INET, ttl, TXT(Split(text)))
  }

  function NewSRV(name: string, ttl: u32, target: string, weight: u16, priority: u16, port: u16): RR {
    RR(name, CLASS_INET, ttl, SRV(priority, weight, port, Fqdn(target)))
  }

  /** The text of a user record, or nothing for an unsupported type. */
  function Render(r: Record): Option<Entry> {
    if r.rtype == "A" then Some(PrintA(r.name, Cut32(r.ttl), READ_ADDRESS(r.target)))
    else if r.rtype == "CNAME" then Some(PrintOwned(NewCNAME(r.name, Cut32(r.ttl), r.target)))
    else if r.rtype == "SRV" then
      Some(PrintOwned(NewSRV(r.name, Cut32(r.ttl), r.target, r.weight, r.priority, r.port)))
    else if r.rtype == "TXT" then Some(PrintOwned(NewTXT(r.name, Cut32(r.ttl), r.text)))
    else None
  }

  /** The record needs an address and has none. */
  predicate LacksAddress(r: Record) {
    r.rtype == "A" && READ_ADDRESS(r.target) == None
  }

  /** The text of a record reads back exactly when the record does not lack its address, and then as
      that record: it keeps its name, type and data, SRV numbers are not swapped, targets are completed
      with a dot, TXT chunks fit a character string and rejoin to the text. Its TTL is kept exactly
      when it is in the range of 32 bits, which covers 0 to 2^31-1. */
  lemma RecordKept(r: Record)
    requires Render(r).Some?
    ensures Render(r).value.Rendered? <==> !LacksAddress(r)
    ensures Render(r).value.Rendered? ==>
            var rr := Render(r).value.rr;
            var target := if r.target != "" && r.target[|r.target| - 1] == '.' then r.target else r.target + ".";
            && (r.name != "@" ==> rr.name == r.name)
            && (r.name == "@" ==> rr.name == if ESCAPES_AT then "\\@" else "@")
            && rr.rclass == 1
            && (rr.ttl == r.ttl <==> 0 <= r.ttl < 0x1_0000_0000)
            && (r.rtype == "A" ==> READ_ADDRESS(r.target).Some? && rr.data == A(READ_ADDRESS(r.target).value))
            && (r.rtype == "CNAME" ==> rr.data == CNAME(target))
            && (r.rtype == "SRV" ==> rr.data == SRV(r.priority, r.weight, r.port, target))
            && (r.rtype == "TXT" ==>
                  && rr.data.TXT? && Join(rr.data.chunks) == r.text
                  && |rr.data.chunks| == |r.text| / 255 + 1
                  && forall j :: 0 <= j < |rr.data.chunks| ==>
                       |rr.data.chunks[j]| == if j < |rr.data.chunks| - 1 then 255 else |r.text| % 255)
  {
    if r.rtype == "TXT" {
      SplitIsSplit(r.text);
      SplitCount(Split(r.text), r.text);
    }
  }

  // ---- the zone

  const NS_NAME: string := "ns.dns"

  /** Labels in front of a zone name, fully qualified. */
  function JoinName(labels: string, zone: string): string {
    if zone == "." then labels + "." else Fqdn(labels + "." + zone)
  }

  function NewSOA(zone: string, seconds: int): RR {
    RR(Fqdn(zone), CLASS_INET, 30,
       SOA(JoinName(NS_NAME, Fqdn(zone)), JoinName("hostmaster", Fqdn(zone)), Cut32(seconds), 7200, 1800, 86400, 30))
  }

  function NewNS(zone: string): RR {
    RR(Fqdn(zone), CLASS_INET, 30, NS(Fqdn(JoinName(NS_NAME, zone))))
  }

  /** The address of the name server; without one the text has no data. */
  function Glue(zone: string, ip: Option<string>): Entry {
    PrintA(Fqdn(JoinName(NS_NAME, zone)), 30, ip)
  }

  lemma RenderedWhenSupported(r: Record)
    ensures Render(r).Some? <==> r.rtype in {"A", "CNAME", "SRV", "TXT"}
  {}

  /** The zone text: SOA, NS and glue, then one entry for each user record, in order. It fails exactly
      when the origin is empty or some record type is not supported. */
  method ToRfc1035Zone(origin: string, records: seq<Record>, nsIP: Option<string>, seconds: int)
    returns (text: Option<seq<Entry>>)
    ensures text.Some? <==>
              origin != "" && forall i :: 0 <= i < |records| ==> records[i].rtype in {"A", "CNAME", "SRV", "TXT"}
    ensures text.Some? ==> Generated(text.value, origin, records, nsIP, seconds)
  {
    hide Render, PrintOwned, Glue, NewSOA, NewNS;
    if origin == "" {
      return None;
    }
    var fixed := [PrintOwned(NewSOA(origin, seconds)), PrintOwned(NewNS(origin)), Glue(origin, nsIP)];
    var out: seq<Entry> := [];
    for i := 0 to |fixed|
      invariant |out| == i && forall j :: 0 <= j < i ==> out[j] == fixed[j]
    {
      out := out + [fixed[i]];
    }
    for i := 0 to |records|
      invariant |out| == 3 + i && forall j :: 0 <= j < 3 ==> out[j] == fixed[j]
      invariant forall j :: 0 <= j < i ==>
                  records[j].rtype in {"A", "CNAME", "SRV", "TXT"} && Render(records[j]) == Some(out[3 + j])
    {
      var entry := Render(records[i]);
      RenderedWhenSupported(records[i]);
      if entry == None {
        return None;
      }
      out := out + [entry.value];
    }
    text := Some(out);
  }

  /** `text` is what the builder makes of the zone. */
  predicate Generated(text: seq<Entry>, origin: string, records: seq<Record>, nsIP: Option<string>, seconds: int) {
    && origin != "" && |text| == 3 + |records|
    && text[0] == PrintOwned(NewSOA(origin, seconds)) && text[1] == PrintOwned(NewNS(origin))
    && text[2] == Glue(origin, nsIP)
    && forall i :: 0 <= i < |records| ==> Render(records[i]) == Some(text[3 + i])
  }

  /** The records of the entries `from` to `to`, their owner names completed with the origin. */
  function QualifiedRange(text: seq<Entry>, from: nat, to: nat, origin: string): seq<RR>
    requires from <= to <= |text| && forall i :: 0 <= i < |text| ==> text[i].Rendered?
  {
    if from == to then [] else QualifiedRange(text, from, to - 1, origin) + [Qualify(text[to - 1].rr, origin)]
  }

  lemma PutAllNothing(v: ZoneVal)
    ensures PutAll(v, []) == v
  {}

  lemma {:induction false} ReadFrom(text: seq<Entry>, from: nat, to: nat, origin: string)
    requires from <= to <= |text| && Readable(text)
    ensures ReadTo(text, to, origin) == PutAll(ReadTo(text, from, origin), QualifiedRange(text, from, to, origin))
  {
    hide Put, PutAll, Qualify;
    if from == to {
      PutAllNothing(ReadTo(text, from, origin));
    } else {
      ReadFrom(text, from, to - 1, origin);
      FileZone.PutAllSnoc(ReadTo(text, from, origin), QualifiedRange(text, from, to - 1, origin),
                          Qualify(text[to - 1].rr, origin));
    }
  }

  lemma {:induction false} RangeOffApex(text: seq<Entry>, from: nat, to: nat, origin: string)
    requires from <= to <= |text| && forall i :: 0 <= i < |text| ==> text[i].Rendered?
    requires forall i :: from <= i < to ==> !text[i].rr.data.SOA? && !text[i].rr.data.NS?
    ensures forall i :: 0 <= i < |QualifiedRange(text, from, to, origin)| ==>
              !AtApex(QualifiedRange(text, from, to, origin)[i], origin)
  {
    if from < to {
      RangeOffApex(text, from, to - 1, origin);
    }
  }

  lemma EntryAccepted(r: Record)
    requires Render(r).Some? && {TYPE_A, TYPE_CNAME, TYPE_SRV, TYPE_TXT} !! REFUSED_TYPES
    ensures LacksAddress(r) ==> Render(r).value.Malformed?
    ensures !LacksAddress(r) ==>
              && Render(r).value.Rendered? && Accepts(Render(r).value.rr)
              && !Render(r).value.rr.data.SOA? && !Render(r).value.rr.data.NS?
  {}

  /** A generated zone text is readable when every address in it is one. */
  lemma GeneratedReadable(text: seq<Entry>, origin: string, records: seq<Record>, nsIP: Option<string>, seconds: int)
    requires Generated(text, origin, records, nsIP, seconds)
    requires {TYPE_A, TYPE_NS, TYPE_CNAME, TYPE_SRV, TYPE_TXT} !! REFUSED_TYPES
    ensures Readable(text) <==> nsIP.Some? && forall i :: 0 <= i < |records| ==> !LacksAddress(records[i])
    ensures Readable(text) ==> forall i :: 2 <= i < |text| ==> !text[i].rr.data.SOA? && !text[i].rr.data.NS?
  {
    forall i | 0 <= i < |records|
      ensures !LacksAddress(records[i]) <==> text[3 + i].Rendered? && Accepts(text[3 + i].rr)
      ensures text[3 + i].Rendered? ==> !text[3 + i].rr.data.SOA? && !text[3 + i].rr.data.NS?
    {
      assert Render(records[i]) == Some(text[3 + i]);
      EntryAccepted(records[i]);
    }
    hide Render, LacksAddress;
    forall i | 3 <= i < |text|
      ensures !LacksAddress(records[i - 3]) <==> text[i].Rendered? && Accepts(text[i].rr)
      ensures text[i].Rendered? ==> !text[i].rr.data.SOA? && !text[i].rr.data.NS?
    {
      assert text[i] == text[3 + (i - 3)];
    }
  }

  /** What follows a relative name under the zone `n`. */
  function Tail(n: string): string {
    if n == "." then "." else "." + n
  }

  lemma HostName(labels: string, origin: string)
    requires origin != "" && labels != ""
    ensures Fqdn(JoinName(labels, origin)) == JoinName(labels, Fqdn(origin)) == labels + Tail(Fqdn(origin))
  {
    var n := Fqdn(origin);
    if origin != "." {
      assert n != ".";
      assert labels + "." + n == labels + ("." + n) && IsFqdn(labels + "." + n);
      if IsFqdn(origin) {
        assert IsFqdn(labels + "." + origin);
      } else {
        assert !IsFqdn(labels + "." + origin);
        assert labels + "." + n == labels + "." + origin + ".";
      }
    }
  }

  /** A relative name is completed; a name with a last dot stays. */
  lemma AbsoluteName(name: string, n: string)
    requires name != "@"
    ensures Absolute(name, n) == if name != "" && name[|name| - 1] == '.' then name else name + Tail(n)
  {
    if !IsFqdn(name) && n != "." {
      assert name + "." + n == name + ("." + n);
    }
  }

  lemma {:induction false} RangeAt(text: seq<Entry>, from: nat, to: nat, origin: string, j: nat)
    requires from <= to <= |text| && forall i :: 0 <= i < |text| ==> text[i].Rendered?
    requires j < to - from
    ensures |QualifiedRange(text, from, to, origin)| == to - from
    ensures QualifiedRange(text, from, to, origin)[j] == Qualify(text[from + j].rr, origin)
  {
    var front := QualifiedRange(text, from, to - 1, origin);
    RangeLength(text, from, to - 1, origin);
    assert QualifiedRange(text, from, to, origin) == front + [Qualify(text[to - 1].rr, origin)];
    hide Qualify, QualifiedRange;
    if j < to - from - 1 {
      RangeAt(text, from, to - 1, origin, j);
    }
  }

  lemma {:induction false} RangeLength(text: seq<Entry>, from: nat, to: nat, origin: string)
    requires from <= to <= |text| && forall i :: 0 <= i < |text| ==> text[i].Rendered?
    ensures |QualifiedRange(text, from, to, origin)| == to - from
  {
    if from < to {
      RangeLength(text, from, to - 1, origin);
    }
  }

  /** What stands at `j` in a generated text, from the glue on, is in the loaded zone. */
  lemma EntryServed(text: seq<Entry>, origin: string, records: seq<Record>, nsIP: Option<string>, seconds: int, j: nat)
    requires Generated(text, origin, records, nsIP, seconds)
    requires {TYPE_A, TYPE_NS, TYPE_CNAME, TYPE_SRV, TYPE_TXT} !! REFUSED_TYPES
    requires ParseZone(text, Fqdn(origin)).Some? && Lower(Fqdn(origin)) == Fqdn(origin) && 2 <= j < |text|
    ensures text[j].Rendered?
    ensures var n, rr := Fqdn(origin), Qualify(text[j].rr, Fqdn(origin));
            Norm(rr) in Get(ParseZone(text, n).value.tree, KeyOf(rr))
  {
    var n := Fqdn(origin);
    var rr := Qualify(text[j].rr, n);
    GeneratedReadable(text, origin, records, nsIP, seconds);
    GeneratedZone(text, origin, records, nsIP, seconds, KeyOf(rr));
    RangeAt(text, 2, |text|, n, j - 2);
    assert Lands(rr, n);
    InLanding(QualifiedRange(text, 2, |text|, n), n, j - 2);
  }

  /** The owner name of a printed user record, in the zone `n`. */
  lemma OwnerName(name: string, n: string)
    ensures var tail := if n == "." then "." else "." + n;
            Absolute(Owner(name), n)
            == if name == "@" then if ESCAPES_AT then "\\@" + tail else n
               else if name != "" && name[|name| - 1] == '.' then name
               else name + tail
  {
    if name == "@" && ESCAPES_AT {
      AbsoluteName("\\@", n);
    } else if name != "@" {
      AbsoluteName(name, n);
    }
  }

  lemma RenderedUnderOwner(r: Record)
    requires Render(r).Some? && Render(r).value.Rendered?
    ensures Render(r).value.rr.name == Owner(r.name) && Render(r).value.rr.rclass == 1
  {}

  lemma FiledUnderOwner(rr: RR, n: string)
    requires rr.rclass == 1
    ensures var owner, q := Lower(Absolute(rr.name, n)), Qualify(rr, n);
            KeyOf(q) == Key(owner, rr.RType()) && Norm(q) == RR(owner, 1, rr.ttl, rr.data)
  {
    hide Lower, Absolute;
  }

  /** Each user record is served: under its owner name, completed with the origin and in lower case, and
      its type, stands a record with its data. A lone `@` stands for the origin unless it is printed
      escaped. */
  lemma UserRecordsServed(
    text: seq<Entry>, origin: string, records: seq<Record>, nsIP: Option<string>, seconds: int, i: nat)
    requires Generated(text, origin, records, nsIP, seconds) && i < |records|
    requires {TYPE_A, TYPE_NS, TYPE_CNAME, TYPE_SRV, TYPE_TXT} !! REFUSED_TYPES
    requires ParseZone(text, Fqdn(origin)).Some? && Lower(Fqdn(origin)) == Fqdn(origin)
    ensures Render(records[i]).Some? && Render(records[i]).value.Rendered?
    ensures var rr, r, n := Render(records[i]).value.rr, records[i], Fqdn(origin);
            var tail := if n == "." then "." else "." + n;
            var owner := Lower(if r.name == "@" then if ESCAPES_AT then "\\@" + tail else n
                               else if r.name != "" && r.name[|r.name| - 1] == '.' then r.name
                               else r.name + tail);
            RR(owner, 1, rr.ttl, rr.data) in Get(ParseZone(text, n).value.tree, Key(owner, rr.RType()))
  {
    var r, n := records[i], Fqdn(origin);
    assert Render(r) == Some(text[3 + i]);
    hide Render, Lower, ParseZone, Get, Generated, Fqdn, IsFqdn, Absolute, Owner, KeyOf, Norm, Qualify;
    EntryServed(text, origin, records, nsIP, seconds, 3 + i);
    RenderedUnderOwner(r);
    FiledUnderOwner(text[3 + i].rr, n);
    OwnerName(r.name, n);
  }

  /** A generated zone text parses, when the library stores the types it uses, if and only if the name
      server and every A record have an address. Its zone then has the SOA record of the origin, which
      names the host `ns.dns` of the zone and the mailbox `hostmaster`, in this order. With an origin in
      lower case, as the name of an object is, the NS record at the apex names the same host, and the
      address of that host is the glue. */
  lemma GeneratedZoneLoads(
    text: seq<Entry>, origin: string, records: seq<Record>, nsIP: Option<string>, seconds: int)
    requires Generated(text, origin, records, nsIP, seconds)
    requires {TYPE_A, TYPE_NS, TYPE_CNAME, TYPE_SRV, TYPE_TXT} !! REFUSED_TYPES
    ensures var n := if origin[|origin| - 1] == '.' then origin else origin + ".";
            var tail := if n == "." then "." else "." + n;
            var parsed := ParseZone(text, n);
            && (parsed.Some? <==>
                  && nsIP.Some?
                  && forall i :: 0 <= i < |records| && records[i].rtype == "A" ==>
                       READ_ADDRESS(records[i].target).Some?)
            && (parsed.Some? ==>
                  && parsed.value.soa
                     == Some(RR(Lower(n), 1, 30, SOA("ns.dns" + tail, "hostmaster" + tail,
                                                     seconds % 0x1_0000_0000, 7200, 1800, 86400, 30)))
                  && (parsed.value.ns == [RR(Lower(n), 1, 30, NS("ns.dns" + tail))] <==> Lower(n) == n)
                  && (Lower(n) == n ==>
                        RR(Lower("ns.dns" + tail), 1, 30, A(nsIP.value))
                        in Get(parsed.value.tree, Key(Lower("ns.dns" + tail), 1))))
  {
    var n := Fqdn(origin);
    GeneratedReadable(text, origin, records, nsIP, seconds);
    HostName("ns.dns", origin);
    HostName("hostmaster", origin);
    hide JoinName, Lower, Get, Readable, ReadTo, Generated;
    if Readable(text) {
      GeneratedZone(text, origin, records, nsIP, seconds, Key("", 0));
      if Lower(n) == n {
        EntryServed(text, origin, records, nsIP, seconds, 2);
      }
    }
  }

  /** The zone of a generated text: its apex, and under each key the glue and the user records. */
  lemma GeneratedZone(
    text: seq<Entry>, origin: string, records: seq<Record>, nsIP: Option<string>, seconds: int, k: Key)
    requires Generated(text, origin, records, nsIP, seconds) && Readable(text)
    requires {TYPE_A, TYPE_NS, TYPE_CNAME, TYPE_SRV, TYPE_TXT} !! REFUSED_TYPES
    ensures var n := Fqdn(origin);
            && ParseZone(text, n).Some?
            && var v := ParseZone(text, n).value;
               && v.soa == Some(Norm(NewSOA(origin, seconds)))
               && (v.ns == [Norm(NewNS(origin))] <==> Lower(n) == n)
               && (Lower(n) == n ==> Get(v.tree, k) == Landing(QualifiedRange(text, 2, |text|, n), n, k))
  {
    var n := Fqdn(origin);
    GeneratedReadable(text, origin, records, nsIP, seconds);
    var head, rest := ReadTo(text, 2, n), QualifiedRange(text, 2, |text|, n);
    HeadOfZone(text, origin, seconds);
    RangeOffApex(text, 2, |text|, n);
    ReadFrom(text, 2, |text|, n);
    PutAllKeepsApex(head, rest);
    PutAllAppends(head, rest, k);
  }

  lemma HeadOfZone(text: seq<Entry>, origin: string, seconds: int)
    requires origin != "" && |text| >= 2 && Readable(text)
    requires text[0] == PrintOwned(NewSOA(origin, seconds)) && text[1] == PrintOwned(NewNS(origin))
    ensures var n, v := Fqdn(origin), ReadTo(text, 2, Fqdn(origin));
            && v.origin == n && v.soa == Some(Norm(NewSOA(origin, seconds)))
            && (if Lower(n) == n then v.ns == [Norm(NewNS(origin))] && v.tree == map[] else v.ns == [])
  {
    var n := Fqdn(origin);
    assert Qualify(text[0].rr, n) == text[0].rr && Qualify(text[1].rr, n) == text[1].rr;
    assert ReadTo(text, 1, n) == Put(ReadTo(text, 0, n), Qualify(text[0].rr, n));
  }
}
