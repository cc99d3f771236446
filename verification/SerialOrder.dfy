/** The order of the millisecond serials, in the sense of section 3.2 of RFC 1982. */
module SerialOrder {
  import opened Wrappers
  import opened Dns
  import opened ZoneValue
  import opened Registry
  import opened Cluster
  import opened Steps
  import opened Runs
  import opened Serving

  const HALF: int := 0x8000_0000
  const WHOLE: int := 0x1_0000_0000

  predicate SerialLess(a: u32, b: u32) {
    (a < b && b - a < HALF) || (a > b && a - b > HALF)
  }

  /** How the serials of two instants compare, whatever the instants: by the gap between them modulo
      2^32. At a gap of exactly half of that neither is less. */
  lemma SerialsCompareByGap(t1: int, t2: int)
    ensures 0 <= t1 < 0x1_0000_0000 ==> SerialOf(t1) == t1
    ensures var a, b, gap := SerialOf(t1), SerialOf(t2), (t2 - t1) % 0x1_0000_0000;
            && (SerialLess(a, b) <==> 0 < gap < 0x8000_0000)
            && (SerialLess(b, a) <==> 0x8000_0000 < gap)
            && (a == b <==> gap == 0)
            && (a != b && !SerialLess(a, b) && !SerialLess(b, a) <==> gap == 0x8000_0000)
  {}

  /** In a run, a later save of a zone writes a greater serial when less than 2^31 milliseconds lie
      between the two updates, also across the wrap-around of the clock. */
  lemma LaterSaveGreaterSerial(
    namespaces: seq<string>, states: seq<System>, events: seq<Event>, n: string, i: nat, j: nat)
    requires Run(namespaces, states, events) && i < j < |events|
    requires SavesTo(namespaces, states[i], events[i], n).Some? && SavesTo(namespaces, states[j], events[j], n).Some?
    requires 0 < events[j].env.millis - events[i].env.millis < HALF
    ensures var first, second := SavesTo(namespaces, states[i], events[i], n).value,
                                 SavesTo(namespaces, states[j], events[j], n).value;
            && first in states[i + 1].store && second in states[j + 1].store
            && SerialLess(states[i + 1].store[first].status.serial, states[j + 1].store[second].status.serial)
  {
    hide SavesTo;
    assert Step(namespaces, states[i], events[i], states[i + 1]);
    assert Step(namespaces, states[j], events[j], states[j + 1]);
    SaveWritesSerial(namespaces, states[i], events[i], states[i + 1], n);
    SaveWritesSerial(namespaces, states[j], events[j], states[j + 1], n);
    SerialsCompareByGap(events[i].env.millis, events[j].env.millis);
  }

  /** The persisted serial is never read back. After a save, a restart or a new text puts the serial of
      the text into the SOA, while the status keeps the saved one. The served serial goes back exactly
      when the serial of the text is less than 2^31 milliseconds behind the clock of the save, modulo
      2^32, and not equal to it. */
  lemma SerialGoesBackWhen(
    namespaces: seq<string>, states: seq<System>, events: seq<Event>, n: string, key: ObjectKey, i: nat, j: nat)
    requires Run(namespaces, states, events) && i < j < |events| && events[i].Serve?
    requires SavesTo(namespaces, states[i], events[i], n) == Some(key)
    requires n in states[i].replica.base && states[i].replica.base[n].soa.Some?
    requires forall m :: i < m < j ==> !Rebases(events[m], n) && SavesTo(namespaces, states[m], events[m], n) == None
    requires forall m :: i < m <= j ==> key in states[m].store
    requires Rebases(events[j], n) && n in states[j + 1].replica.base && n in states[j + 1].replica.overlay
    requires var v := Incoming(namespaces, states[j].store, events[j], n); v.Some? && v.value.soa.Some?
    ensures n in states[j].replica.base && n in states[j].replica.overlay && key in states[j + 1].store
    ensures var before := Merged(states[j].replica.base[n], states[j].replica.overlay[n]);
            var after := Merged(states[j + 1].replica.base[n], states[j + 1].replica.overlay[n]);
            var text := Incoming(namespaces, states[j].store, events[j], n).value.soa.value.data.serial;
            var clock := events[i].env.millis;
            && ShowsSerial(before, SerialOf(clock)) && ShowsSerial(after, text)
            && states[j + 1].store[key].status.serial == SerialOf(clock)
            && (SerialLess(text, SerialOf(clock)) <==> 0 < (clock - text) % WHOLE < HALF)
  {
    hide Run, Step, SavesTo, Rebases, Incoming, ShowsSerial, Consistent, Named;
    RunLength(namespaces, states, events);
    SerialStays(namespaces, states, events, n, key, i, j);
    RunStep(namespaces, states, events, j);
    BaseAfterRebase(namespaces, states[j], events[j], states[j + 1], n);
    ShowsOwnSerial(states[j + 1].replica.base[n], states[j + 1].replica.overlay[n]);
    var v := Incoming(namespaces, states[j].store, events[j], n).value;
    SerialsCompareByGap(v.soa.value.data.serial, events[i].env.millis);
  }

  lemma ShowsOwnSerial(base: ZoneVal, overlay: ZoneVal)
    requires base.soa.Some?
    ensures ShowsSerial(Merged(base, overlay), base.soa.value.data.serial)
  {}
}
