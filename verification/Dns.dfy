/** DNS resource records as the plugin sees them, and the few library decisions it depends on. */
module Dns {
  type u16 = n: nat | n < 0x1_0000
  type u32 = n: nat | n < 0x1_0000_0000

  const TYPE_A: u16 := 1
  const TYPE_NS: u16 := 2
  const TYPE_CNAME: u16 := 5
  const TYPE_SOA: u16 := 6
  const TYPE_TXT: u16 := 16
  const TYPE_AAAA: u16 := 28
  const TYPE_SRV: u16 := 33
  const TYPE_IXFR: u16 := 251
  const TYPE_AXFR: u16 := 252
  const TYPE_ANY: u16 := 255

  const CLASS_INET: u16 := 1
  const CLASS_NONE: u16 := 254
  const CLASS_ANY: u16 := 255

  const OPCODE_NOTIFY: nat := 4
  const OPCODE_UPDATE: nat := 5

  datatype Rcode = Success | ServerFailure | NotImplemented | Refused

  /** Record data. An address is kept as the text it was given in. */
  datatype RData =
    | A(ip: string)
    | AAAA(ip6: string)
    | CNAME(target: string)
    | NS(host: string)
    | TXT(chunks: seq<string>)
    | SRV(priority: u16, weight: u16, port: u16, srvTarget: string)
    | SOA(mname: string, rname: string, serial: u32, refresh: u32, retry: u32, expire: u32, minttl: u32)
    | Other(code: u16, bytes: string)

  datatype RR = RR(name: string, rclass: u16, ttl: u32, data: RData) {
    function RType(): u16 {
      match data
      case A(_) => TYPE_A
      case AAAA(_) => TYPE_AAAA
      case CNAME(_) => TYPE_CNAME
      case NS(_) => TYPE_NS
      case TXT(_) => TYPE_TXT
      case SRV(_, _, _, _) => TYPE_SRV
      case SOA(_, _, _, _, _, _, _) => TYPE_SOA
      case Other(code, _) => code
    }
  }

  /** The type codes of section 3.2.2 of RFC 1035 and of RFC 3596 and RFC 2782. */
  lemma TypeCodes(rr: RR)
    ensures rr.data.A? ==> rr.RType() == 1
    ensures rr.data.NS? ==> rr.RType() == 2
    ensures rr.data.CNAME? ==> rr.RType() == 5
    ensures rr.data.SOA? ==> rr.RType() == 6
    ensures rr.data.TXT? ==> rr.RType() == 16
    ensures rr.data.AAAA? ==> rr.RType() == 28
    ensures rr.data.SRV? ==> rr.RType() == 33
    ensures rr.data.Other? ==> rr.RType() == rr.data.code
  {}

  type SoaRR = r: RR | r.data.SOA? witness RR("", 1, 0, SOA("", "", 0, 0, 0, 0, 0))

  /** What the library decides and this repository does not show. The constants have no value here, so
      every statement of the project holds for each value they could have. */
  // Types, SOA aside, that the zone type refuses to store.
  const REFUSED_TYPES: set<u16>
  // Whether removing a record empties its (owner, type) key, or takes out all records with equal data
  // there, or the first one only.
  datatype Deletion = WholeSet | AllEqual | FirstEqual
  const DELETION: Deletion
  // The library's syntax check of a domain name.
  const IS_DOMAIN_NAME: string -> bool

  predicate Accepts(rr: RR) {
    rr.data.SOA? || rr.RType() !in REFUSED_TYPES
  }

  /** A persisted record text or a zone-file entry, as far as the plugin can tell such texts apart:
      one that reads back as `rr`, or one that does not parse. Printing a record and reading the
      text back gives the record again. */
  datatype Entry = Rendered(rr: RR) | Malformed(raw: string)

  function Print(rr: RR): Entry { Rendered(rr) }

  function LowerChar(c: char): char {
    if 'A' <= c <= 'Z' then (c as int + 32) as char else c
  }

  function Lower(s: string): string {
    seq(|s|, i requires 0 <= i < |s| => LowerChar(s[i]))
  }

  /** Equal, or the two cases of one letter. */
  ghost predicate SameLetter(c: char, d: char) {
    || c == d
    || ('A' <= c <= 'Z' && d as int == c as int - 'A' as int + 'a' as int)
    || ('A' <= d <= 'Z' && c as int == d as int - 'A' as int + 'a' as int)
  }

  /** Two names have the same lower-case form exactly when they are equal but for the case of letters. */
  lemma LowerIgnoresCase(s: string, t: string)
    ensures Lower(s) == Lower(t) <==> |s| == |t| && forall i :: 0 <= i < |s| ==> SameLetter(s[i], t[i])
  {
    if |s| == |t| && forall i :: 0 <= i < |s| ==> SameLetter(s[i], t[i]) {
      assert forall i :: 0 <= i < |s| ==> LowerChar(s[i]) == LowerChar(t[i]);
    }
    if Lower(s) == Lower(t) {
      assert |s| == |Lower(s)| == |Lower(t)| == |t|;
      forall i | 0 <= i < |s|
        ensures SameLetter(s[i], t[i])
      {
        assert Lower(s)[i] == Lower(t)[i];
      }
    }
  }

  lemma LowerTwice(s: string)
    ensures Lower(Lower(s)) == Lower(s)
  {
    assert forall i :: 0 <= i < |s| ==> Lower(Lower(s))[i] == Lower(s)[i];
  }

  predicate IsFqdn(s: string) {
    s != "" && s[|s| - 1] == '.'
  }

  function Fqdn(s: string): string {
    if IsFqdn(s) then s else s + "."
  }

  function TrimDot(s: string): string {
    if IsFqdn(s) then s[..|s| - 1] else s
  }

  /** A relative owner name in a zone file is completed with the origin, for which `@` stands. */
  function Absolute(name: string, origin: string): string {
    if name == "@" then origin
    else if IsFqdn(name) then name
    else if origin == "." then name + "."
    else name + "." + origin
  }
}
