/** Which serial stays when update handlers of one zone run at the same time. A handler takes its
    serial from the clock when it arrives, before it waits for the write lock. */
module SerialRaces {
  import opened Wrappers
  import opened Dns
  import opened ZoneValue
  import opened Update
  import opened Cluster
  import opened Concurrency
  import Clock = Steps
  import SerialOrder

  ghost predicate Quiet(s: Shared) {
    forall h :: h in s.handlers ==> s.handlers[h].phase.Finished?
  }

  /** In every interleaving the status shows the serial of the last handler that wrote it, and the
      SOA the serial of the last handler that set it; before that, both are as they were. Once all
      handlers have finished, either both were set or none. */
  lemma SerialsOfLast(states: seq<Shared>, actors: seq<nat>, actions: seq<Action>, i: nat)
    requires Interleaving(states, actors, actions) && i < |states|
    ensures var s := states[i];
            && (match s.lastWriter
                case None => s.status.serial == states[0].status.serial
                case Some(w) => w in s.handlers && s.status.serial == s.handlers[w].serial)
            && (match s.soaSetter
                case None => s.soaSerial == states[0].soaSerial
                case Some(w) => w in s.handlers && s.soaSerial == Some(s.handlers[w].serial))
            && (Quiet(s) && states[0].soaSerial.Some? ==> s.lastWriter.Some? == s.soaSetter.Some?)
  {
    AlwaysInv(states, actors, actions, i);
    BeforeFirstWrite(states, actors, actions, i);
  }

  // ---- how the write lock is taken

  /** `g` arrived before `h`. */
  ghost predicate Before(s: Shared, g: nat, h: nat) {
    exists p, q :: 0 <= p < q < |s.arrived| && s.arrived[p] == g && s.arrived[q] == h
  }

  /** What may be asked of those who take the write lock: not to take it while another handler is
      between its two locks, and not to take it while one that arrived before still waits. */
  datatype Discipline = Discipline(gapless: bool, inTurn: bool)

  const ANYHOW: Discipline := Discipline(false, false)
  const GAPLESS: Discipline := Discipline(true, false)
  const IN_TURN: Discipline := Discipline(false, true)
  const GAPLESS_IN_TURN: Discipline := Discipline(true, true)

  ghost predicate NoneBetweenLocks(s: Shared) {
    forall x :: x in s.handlers ==> s.handlers[x].phase != Applied
  }

  ghost predicate IsTurnOf(s: Shared, h: nat) {
    forall g :: In(s, g, Waiting) ==> !Before(s, g, h)
  }

  ghost predicate Fits(d: Discipline, s: Shared, h: nat, a: Action) {
    a.LockWrite? ==> (d.gapless ==> NoneBetweenLocks(s)) && (d.inTurn ==> IsTurnOf(s, h))
  }

  ghost predicate Keeps(d: Discipline, states: seq<Shared>, actors: seq<nat>, actions: seq<Action>)
    requires |states| == |actors| + 1 == |actions| + 1
  {
    forall i :: 0 <= i < |actions| ==> Fits(d, states[i], actors[i], actions[i])
  }

  // ---- without gaps

  predicate Active(p: Phase) {
    !p.Waiting? && !p.Finished?
  }

  /** At most one handler is active, the last in lock order. */
  ghost predicate OneActive(s: Shared) {
    forall h :: h in s.handlers && Active(s.handlers[h].phase) ==> s.order != [] && s.order[|s.order| - 1] == h
  }

  /** Who wrote last had the write lock last among those that are saved. */
  ghost predicate LastLockedWrote(s: Shared) {
    && (forall h :: h in s.handlers && s.handlers[h].phase == Saved ==> s.lastWriter == Some(h))
    && (s.lastWriter.Some? ==> 0 < s.saved <= |s.order| && s.order[s.saved - 1] == s.lastWriter.value)
  }

  /** Who wrote last set the SOA serial last or is about to. */
  ghost predicate SoaFollows(s: Shared) {
    s.soaSerial.Some? && s.lastWriter.Some? ==> s.soaSetter == s.lastWriter || In(s, s.lastWriter.value, Saved)
  }

  /** When the write lock is taken outside a gap, no handler is active. */
  lemma AllPassive(s: Shared, h: nat, t: Shared)
    requires LocksAgree(s) && Next(s, h, LockWrite, t) && NoneBetweenLocks(s)
    ensures forall x :: x in s.handlers ==> !Active(s.handlers[x].phase)
  {
    forall x | x in s.handlers
      ensures !Active(s.handlers[x].phase)
    {
      assert Holds(s.handlers[x].phase) ==> x in s.readers;
    }
  }

  lemma NextOneActive(s: Shared, h: nat, a: Action, t: Shared)
    requires OneActive(s) && Next(s, h, a, t)
    requires a.LockWrite? ==> forall x :: x in s.handlers ==> !Active(s.handlers[x].phase)
    ensures OneActive(t)
  {
    hide Snapshot, Apply, Times, Verdict;
  }

  lemma NextLastLockedWrote(s: Shared, h: nat, a: Action, t: Shared)
    requires OneActive(s) && LastLockedWrote(s) && Next(s, h, a, t)
    ensures LastLockedWrote(t)
  {
    hide Snapshot, Apply, Times, Verdict;
  }

  lemma NextSoaFollows(s: Shared, h: nat, a: Action, t: Shared)
    requires LastLockedWrote(s) && SoaFollows(s) && Next(s, h, a, t)
    ensures SoaFollows(t)
  {
    hide Snapshot, Apply, Times, Verdict;
  }

  lemma SerialisedStep(s: Shared, h: nat, a: Action, t: Shared)
    requires LocksAgree(s) && OneActive(s) && LastLockedWrote(s) && SoaFollows(s) && Next(s, h, a, t)
    requires a.LockWrite? ==> NoneBetweenLocks(s)
    ensures OneActive(t) && LastLockedWrote(t) && SoaFollows(t)
  {
    hide OneActive, LastLockedWrote, SoaFollows, LocksAgree, Next, NoneBetweenLocks;
    if a.LockWrite? {
      AllPassive(s, h, t);
    }
    NextOneActive(s, h, a, t);
    NextLastLockedWrote(s, h, a, t);
    NextSoaFollows(s, h, a, t);
  }

  lemma NextAt(d: Discipline, states: seq<Shared>, actors: seq<nat>, actions: seq<Action>, i: nat)
    requires Steps(states, actors, actions) && Keeps(d, states, actors, actions) && i < |actions|
    ensures Next(states[i], actors[i], actions[i], states[i + 1]) && Fits(d, states[i], actors[i], actions[i])
  {}

  lemma InterleavingLength(states: seq<Shared>, actors: seq<nat>, actions: seq<Action>)
    requires Interleaving(states, actors, actions)
    ensures |states| == |actors| + 1 == |actions| + 1 && Initial(states[0])
  {}

  /** What is known of a step of an interleaving that keeps to the discipline. */
  lemma StepUnder(d: Discipline, states: seq<Shared>, actors: seq<nat>, actions: seq<Action>, i: nat)
    requires Interleaving(states, actors, actions) && Keeps(d, states, actors, actions) && i < |actions|
    ensures LocksAgree(states[i]) && Next(states[i], actors[i], actions[i], states[i + 1])
    ensures Fits(d, states[i], actors[i], actions[i])
  {
    AlwaysInv(states, actors, actions, i);
    NextAt(d, states, actors, actions, i);
  }

  lemma StartsSerialised(s: Shared)
    requires Initial(s)
    ensures OneActive(s) && LastLockedWrote(s) && SoaFollows(s)
  {}

  lemma {:induction false} AlwaysSerialised(
    d: Discipline, states: seq<Shared>, actors: seq<nat>, actions: seq<Action>, i: nat)
    requires Interleaving(states, actors, actions) && Keeps(d, states, actors, actions) && d.gapless && i < |states|
    ensures OneActive(states[i]) && LastLockedWrote(states[i]) && SoaFollows(states[i])
  {
    hide Interleaving, Keeps, OneActive, LastLockedWrote, SoaFollows, LocksAgree, Next, Initial;
    hide NoneBetweenLocks, IsTurnOf;
    InterleavingLength(states, actors, actions);
    if i == 0 {
      StartsSerialised(states[0]);
    } else {
      AlwaysSerialised(d, states, actors, actions, i - 1);
      StepUnder(d, states, actors, actions, i - 1);
      SerialisedStep(states[i - 1], actors[i - 1], actions[i - 1], states[i]);
    }
  }

  /** As long as no one takes the write lock while another handler is between its two locks, the
      status and the SOA agree whenever all handlers have finished: both show the serial of the one
      that had the write lock last among those that are saved. */
  lemma SerialsAgree(
    d: Discipline, states: seq<Shared>, actors: seq<nat>, actions: seq<Action>, i: nat)
    requires Interleaving(states, actors, actions) && Keeps(d, states, actors, actions) && d.gapless
    requires i < |states| && states[0].soaSerial.Some? && Quiet(states[i]) && states[i].lastWriter.Some?
    ensures var s := states[i];
            && 0 < s.saved <= |s.order| && s.order[s.saved - 1] in s.handlers
            && s.status.serial == s.handlers[s.order[s.saved - 1]].serial && s.soaSerial == Some(s.status.serial)
  {
    AlwaysInv(states, actors, actions, i);
    AlwaysSerialised(d, states, actors, actions, i);
    BeforeFirstWrite(states, actors, actions, i);
  }

  // ---- in turn

  /** Every handler arrived once. */
  ghost predicate ArrivedOnce(s: Shared) {
    && (forall p, q :: 0 <= p < q < |s.arrived| ==> s.arrived[p] != s.arrived[q])
    && forall h :: h in s.arrived <==> h in s.handlers
  }

  /** The lock order is the order of arrival, as far as it goes. */
  ghost predicate OrderIsArrival(s: Shared) {
    |s.order| <= |s.arrived| && s.order == s.arrived[..|s.order|]
  }

  lemma NextArrived(s: Shared, h: nat, a: Action, t: Shared)
    requires ArrivedOnce(s) && Next(s, h, a, t)
    ensures ArrivedOnce(t)
  {
    hide Snapshot, Apply, Times, Verdict;
  }

  lemma OrderAndArrival(s: Shared, h: nat, a: Action, t: Shared)
    requires Next(s, h, a, t)
    ensures t.arrived == if a.Arrive? then s.arrived + [h] else s.arrived
    ensures t.order == if a.LockWrite? then s.order + [h] else s.order
    ensures a.LockWrite? ==> In(s, h, Waiting)
  {
    hide Snapshot, Apply, Times, Verdict;
  }

  lemma NextInTurn(s: Shared, h: nat, a: Action, t: Shared)
    requires ArrivedOnce(s) && OrderAgrees(s) && OrderIsArrival(s) && Next(s, h, a, t)
    requires a.LockWrite? ==> IsTurnOf(s, h)
    ensures OrderIsArrival(t)
  {
    OrderAndArrival(s, h, a, t);
    hide Next;
    if a.LockWrite? {
      NextInLine(s, h);
    }
  }

  /** The handler whose turn it is, is the next one in the order of arrival. */
  lemma NextInLine(s: Shared, h: nat)
    requires ArrivedOnce(s) && OrderAgrees(s) && OrderIsArrival(s) && In(s, h, Waiting) && IsTurnOf(s, h)
    ensures |s.order| < |s.arrived| && s.arrived[|s.order|] == h
  {
    var n := |s.order|;
    assert h in s.arrived && h !in s.order;
    var q :| 0 <= q < |s.arrived| && s.arrived[q] == h;
    assert forall p :: 0 <= p < n ==> s.order[p] in s.order && s.order[p] == s.arrived[p];
    assert n <= q;
    var g := s.arrived[n];
    assert g in s.arrived && g !in s.order && In(s, g, Waiting);
    assert n < q ==> Before(s, g, h);
  }

  lemma {:induction false} AlwaysInTurn(
    d: Discipline, states: seq<Shared>, actors: seq<nat>, actions: seq<Action>, i: nat)
    requires Interleaving(states, actors, actions) && Keeps(d, states, actors, actions) && d.inTurn && i < |states|
    ensures ArrivedOnce(states[i]) && OrderIsArrival(states[i])
  {
    hide Interleaving, Keeps, ArrivedOnce, OrderIsArrival, OrderAgrees, WriterAgrees, ReadersAgree, Next, Initial;
    hide NoneBetweenLocks, IsTurnOf;
    InterleavingLength(states, actors, actions);
    if i == 0 {
      StartsInTurn(states[0]);
    } else {
      AlwaysInTurn(d, states, actors, actions, i - 1);
      StepUnder(d, states, actors, actions, i - 1);
      NextArrived(states[i - 1], actors[i - 1], actions[i - 1], states[i]);
      NextInTurn(states[i - 1], actors[i - 1], actions[i - 1], states[i]);
    }
  }

  lemma StartsInTurn(s: Shared)
    requires Initial(s)
    ensures ArrivedOnce(s) && OrderIsArrival(s)
  {}

  lemma NextSavedGrows(s: Shared, h: nat, a: Action, t: Shared)
    requires OrderAgrees(s) && Next(s, h, a, t)
    ensures s.saved <= t.saved <= |t.order| && |s.order| <= |t.order| && s.order == t.order[..|s.order|]
    ensures a.WriteStatus? ==> h in t.order[..t.saved]
  {
    hide Snapshot, Apply, Times, Verdict;
    if a.WriteStatus? {
      assert h in s.order && t.order[..t.saved] == s.order;
    }
  }

  lemma StaysSaved(s: Shared, h: nat, a: Action, t: Shared, g: nat)
    requires OrderAgrees(s) && Next(s, h, a, t)
    requires g in s.order[..s.saved] || (a.WriteStatus? && g == h)
    ensures t.saved <= |t.order| && g in t.order[..t.saved]
  {
    NextSavedGrows(s, h, a, t);
    hide Next;
    if g in s.order[..s.saved] {
      var p :| 0 <= p < s.saved && s.order[p] == g;
      assert t.order[..t.saved][p] == g;
    }
  }

  lemma StepInOrder(states: seq<Shared>, actors: seq<nat>, actions: seq<Action>, i: nat)
    requires Interleaving(states, actors, actions) && i < |actions|
    ensures |states| == |actors| + 1 == |actions| + 1
    ensures OrderAgrees(states[i]) && states[i].saved <= |states[i].order|
    ensures Next(states[i], actors[i], actions[i], states[i + 1])
  {
    AlwaysInv(states, actors, actions, i);
  }

  /** Whoever wrote the status is among the first `saved`. */
  lemma {:induction false} WritersAreSaved(states: seq<Shared>, actors: seq<nat>, actions: seq<Action>, i: nat, m: nat)
    requires Interleaving(states, actors, actions) && m < i < |states| && actions[m].WriteStatus?
    ensures states[i].saved <= |states[i].order| && actors[m] in states[i].order[..states[i].saved]
    decreases i
  {
    hide Interleaving, OrderAgrees, Next;
    InterleavingLength(states, actors, actions);
    StepInOrder(states, actors, actions, i - 1);
    if m < i - 1 {
      WritersAreSaved(states, actors, actions, i - 1, m);
    }
    StaysSaved(states[i - 1], actors[i - 1], actions[i - 1], states[i], actors[m]);
  }

  /** As long as the write lock is taken without a gap and in turn, the newest serial stays: whenever
      all handlers have finished, status and SOA show the serial of a handler that wrote the status,
      and none that wrote it, and so none that answered that all went well, arrived later. */
  lemma NewestSerialStays(states: seq<Shared>, actors: seq<nat>, actions: seq<Action>, i: nat)
    requires Interleaving(states, actors, actions) && Keeps(GAPLESS_IN_TURN, states, actors, actions)
    requires i < |states| && states[0].soaSerial.Some? && Quiet(states[i]) && states[i].lastWriter.Some?
    ensures var s := states[i];
            && 0 < s.saved <= |s.arrived|
            && var newest := s.arrived[s.saved - 1];
               && s.lastWriter == Some(newest) && newest in s.handlers
               && s.status.serial == s.handlers[newest].serial && s.soaSerial == Some(s.status.serial)
               && (forall m :: 0 <= m < i && actions[m].WriteStatus? ==> actors[m] in s.arrived[..s.saved])
               && (forall h :: In(s, h, Finished(Success)) ==> h in s.arrived[..s.saved])
  {
    hide Interleaving, Keeps, Quiet, OneActive, ArrivedOnce, Inv;
    var d, s := GAPLESS_IN_TURN, states[i];
    InterleavingLength(states, actors, actions);
    SerialsAgree(d, states, actors, actions, i);
    AlwaysSerialised(d, states, actors, actions, i);
    AlwaysInTurn(d, states, actors, actions, i);
    AlwaysInv(states, actors, actions, i);
    SuccessIsSaved(s, states[0].overlay);
    assert s.order[..s.saved] == s.arrived[..s.saved];
    forall m | 0 <= m < i && actions[m].WriteStatus?
      ensures actors[m] in s.arrived[..s.saved]
    {
      WritersAreSaved(states, actors, actions, i, m);
    }
  }

  lemma SuccessIsSaved(s: Shared, start: ZoneVal)
    requires Inv(s, start)
    ensures s.saved <= |s.order| && (s.saved > 0 ==> s.lastWriter.Some?)
    ensures forall h :: In(s, h, Finished(Success)) ==> h in s.order[..s.saved]
  {}

  /** The handlers took their serials from a clock that does not go back, all within 2^31
      milliseconds. */
  ghost predicate ByClock(s: Shared, times: seq<int>) {
    && |times| == |s.arrived|
    && (forall p :: 0 <= p < |times| ==>
          s.arrived[p] in s.handlers && s.handlers[s.arrived[p]].serial == Clock.SerialOf(times[p]))
    && forall p, q :: 0 <= p <= q < |times| ==> 0 <= times[q] - times[p] < SerialOrder.HALF
  }

  /** Then no handler that answered that all went well has a greater serial than the one that stays, in
      the sense of section 3.2 of RFC 1982. */
  lemma NoGreaterSerial(
    states: seq<Shared>, actors: seq<nat>, actions: seq<Action>, i: nat, times: seq<int>, h: nat)
    requires Interleaving(states, actors, actions) && Keeps(GAPLESS_IN_TURN, states, actors, actions)
    requires i < |states| && states[0].soaSerial.Some? && Quiet(states[i]) && ByClock(states[i], times)
    requires In(states[i], h, Finished(Success))
    ensures states[i].soaSerial == Some(states[i].status.serial)
    ensures !SerialOrder.SerialLess(states[i].status.serial, states[i].handlers[h].serial)
  {
    hide Interleaving, Keeps, Inv, Quiet;
    var s := states[i];
    AlwaysInv(states, actors, actions, i);
    SuccessIsSaved(s, states[0].overlay);
    NewestSerialStays(states, actors, actions, i);
    assert h in s.arrived[..s.saved];
    var p :| 0 <= p < s.saved && s.arrived[p] == h;
    SerialOrder.SerialsCompareByGap(times[s.saved - 1], times[p]);
    SerialOrder.SerialsCompareByGap(times[p], times[s.saved - 1]);
  }

  // ---- one by one

  /** Each handler arrives only after all earlier ones have finished. */
  ghost predicate OneByOne(states: seq<Shared>, actions: seq<Action>)
    requires |states| == |actions| + 1
  {
    forall i :: 0 <= i < |actions| && actions[i].Arrive? ==> Quiet(states[i])
  }

  ghost predicate OneUnfinished(s: Shared) {
    forall g, h | g in s.handlers && h in s.handlers ::
      s.handlers[g].phase.Finished? || s.handlers[h].phase.Finished? || g == h
  }

  lemma NextOneUnfinished(s: Shared, h: nat, a: Action, t: Shared)
    requires OneUnfinished(s) && Next(s, h, a, t) && (a.Arrive? ==> Quiet(s))
    ensures OneUnfinished(t)
  {
    hide Snapshot, Apply, Times, Verdict;
  }

  lemma {:induction false} AlwaysOneUnfinished(states: seq<Shared>, actors: seq<nat>, actions: seq<Action>, i: nat)
    requires Interleaving(states, actors, actions) && OneByOne(states, actions) && i < |states|
    ensures OneUnfinished(states[i]) && ArrivedOnce(states[i])
  {
    if i > 0 {
      AlwaysOneUnfinished(states, actors, actions, i - 1);
      assert Next(states[i - 1], actors[i - 1], actions[i - 1], states[i]);
      hide Next, OneUnfinished, ArrivedOnce;
      NextOneUnfinished(states[i - 1], actors[i - 1], actions[i - 1], states[i]);
      NextArrived(states[i - 1], actors[i - 1], actions[i - 1], states[i]);
    }
  }

  /** Handlers that come one by one take the write lock without gaps and in turn. */
  lemma OneByOneIsOrderly(states: seq<Shared>, actors: seq<nat>, actions: seq<Action>)
    requires Interleaving(states, actors, actions) && OneByOne(states, actions)
    ensures Keeps(GAPLESS_IN_TURN, states, actors, actions)
  {
    forall i | 0 <= i < |actions|
      ensures Fits(GAPLESS_IN_TURN, states[i], actors[i], actions[i])
    {
      AlwaysOneUnfinished(states, actors, actions, i);
      assert Next(states[i], actors[i], actions[i], states[i + 1]);
      if actions[i].LockWrite? {
        OrderAndArrival(states[i], actors[i], actions[i], states[i + 1]);
      }
    }
  }

  // ---- what happens otherwise

  /** The state `t` can follow `s` in an interleaving, after steps that keep to the discipline. */
  ghost predicate Reaches(d: Discipline, s: Shared, t: Shared) {
    exists states, actors, actions ::
      && Steps(states, actors, actions) && Keeps(d, states, actors, actions)
      && states[0] == s && states[|states| - 1] == t
  }

  lemma OneStep(d: Discipline, s: Shared, h: nat, a: Action, t: Shared)
    requires Next(s, h, a, t) && Fits(d, s, h, a)
    ensures Reaches(d, s, t)
  {
    hide Next, Fits;
    assert Steps([s, t], [h], [a]) && Keeps(d, [s, t], [h], [a]);
  }

  lemma StepsTogether(
    d: Discipline, states: seq<Shared>, actors: seq<nat>, actions: seq<Action>,
    states': seq<Shared>, actors': seq<nat>, actions': seq<Action>)
    requires Steps(states, actors, actions) && Steps(states', actors', actions')
    requires Keeps(d, states, actors, actions) && Keeps(d, states', actors', actions')
    requires states[|states| - 1] == states'[0]
    ensures Steps(states + states'[1..], actors + actors', actions + actions')
    ensures Keeps(d, states + states'[1..], actors + actors', actions + actions')
  {
    hide Next, Fits;
    var all := states + states'[1..];
    forall i | 0 <= i < |actions + actions'|
      ensures Next(all[i], (actors + actors')[i], (actions + actions')[i], all[i + 1])
      ensures Fits(d, all[i], (actors + actors')[i], (actions + actions')[i])
    {
      if i < |actions| {
        NextAt(d, states, actors, actions, i);
      } else {
        var j := i - |actions|;
        NextAt(d, states', actors', actions', j);
        assert all[i] == states'[j] && all[i + 1] == states'[j + 1];
      }
    }
  }

  lemma ReachesFurther(d: Discipline, s: Shared, t: Shared, u: Shared)
    requires Reaches(d, s, t) && Reaches(d, t, u)
    ensures Reaches(d, s, u)
  {
    hide Next, Fits;
    var states, actors, actions :|
      && Steps(states, actors, actions) && Keeps(d, states, actors, actions)
      && states[0] == s && states[|states| - 1] == t;
    var states', actors', actions' :|
      && Steps(states', actors', actions') && Keeps(d, states', actors', actions')
      && states'[0] == t && states'[|states'| - 1] == u;
    StepsTogether(d, states, actors, actions, states', actors', actions');
    hide Keeps;
    assert (states + states'[1..])[|states + states'[1..]| - 1] == u;
  }

  lemma ReachableInv(d: Discipline, s: Shared, t: Shared)
    requires Initial(s) && Reaches(d, s, t)
    ensures Inv(t, s.overlay) && Tidy(t.overlay) && t.soaSerial.Some? == s.soaSerial.Some?
  {
    var states, actors, actions :|
      && Steps(states, actors, actions) && Keeps(d, states, actors, actions)
      && states[0] == s && states[|states| - 1] == t;
    AlwaysInv(states, actors, actions, |states| - 1);
    BeforeFirstWrite(states, actors, actions, |states| - 1);
    ApplyAllTidy(s.overlay, Blocks(t.order, t.handlers));
  }

  /** The handler that holds the write lock applies what is left of its section and gives it back. */
  lemma {:induction false} AppliesRest(d: Discipline, s: Shared, h: nat) returns (t: Shared)
    requires In(s, h, Applying) && Tidy(s.overlay)
    requires s.handlers[h].done <= |s.handlers[h].work| && Harmless(s.handlers[h].work)
    ensures Reaches(d, s, t) && Tidy(t.overlay)
    ensures t == s.(overlay := t.overlay, writer := None,
                    handlers := s.handlers[h := s.handlers[h].(done := |s.handlers[h].work|, phase := Applied)])
    decreases |s.handlers[h].work| - s.handlers[h].done
  {
    var me := s.handlers[h];
    if me.done == |me.work| {
      t := s.(writer := None, handlers := With(s, h, Applied));
      OneStep(d, s, h, UnlockWrite, t);
    } else {
      var rr := me.work[me.done];
      var u := s.(overlay := Apply(s.overlay, rr), handlers := s.handlers[h := me.(done := me.done + 1)]);
      PutTidy(s.overlay, rr);
      RemoveTidy(s.overlay, rr);
      OneStep(d, s, h, ApplyOne, u);
      hide Reaches, Harmless, Apply;
      t := AppliesRest(d, u, h);
      ReachesFurther(d, s, u, t);
    }
  }

  /** A handler that waits gets through its write lock when no lock is held. */
  lemma AppliesAll(d: Discipline, s: Shared, h: nat) returns (t: Shared)
    requires In(s, h, Waiting) && s.handlers[h].done == 0 && s.writer == None && s.readers == {}
    requires Tidy(s.overlay) && Harmless(s.handlers[h].work) && Fits(d, s, h, LockWrite)
    ensures Reaches(d, s, t) && Tidy(t.overlay)
    ensures t == s.(overlay := t.overlay, order := s.order + [h],
                    handlers := s.handlers[h := s.handlers[h].(done := |s.handlers[h].work|, phase := Applied)])
  {
    var u := s.(writer := Some(h), handlers := With(s, h, Applying), order := s.order + [h]);
    hide Fits;
    OneStep(d, s, h, LockWrite, u);
    hide Reaches, Harmless, Tidy;
    t := AppliesRest(d, u, h);
    ReachesFurther(d, s, u, t);
  }

  lemma Reads(d: Discipline, s: Shared, h: nat) returns (t: Shared)
    requires In(s, h, Applied) && s.writer == None
    ensures Reaches(d, s, t) && t == s.(readers := s.readers + {h}, handlers := With(s, h, Reading))
  {
    t := s.(readers := s.readers + {h}, handlers := With(s, h, Reading));
    OneStep(d, s, h, LockRead, t);
  }

  lemma Saves(d: Discipline, s: Shared, h: nat) returns (t: Shared)
    requires In(s, h, Reading) && Tidy(s.overlay)
    ensures Reaches(d, s, t) && t.status.serial == s.handlers[h].serial
    ensures t == s.(status := t.status, handlers := With(s, h, Saved), saved := |s.order|, lastWriter := Some(h))
  {
    var texts := SnapshotExists(s.overlay);
    hide Snapshot, Reaches;
    var u := s.(handlers := With(s, h, Snapped(texts)));
    t := u.(status := Status(texts, s.handlers[h].serial), handlers := With(s, h, Saved),
            saved := |s.order|, lastWriter := Some(h));
    assert With(u, h, Saved) == With(s, h, Saved);
    OneStep(d, s, h, Snap(texts), u);
    OneStep(d, u, h, WriteStatus, t);
    ReachesFurther(d, s, u, t);
  }

  lemma Answers(d: Discipline, s: Shared, h: nat) returns (t: Shared)
    requires In(s, h, Saved)
    ensures Reaches(d, s, t) && t == Responded(s, h, true)
  {
    t := Responded(s, h, true);
    OneStep(d, s, h, Respond(true), t);
  }

  // ---- a gap

  /** Both handlers got through their write lock, `newer` after `older`, and now read. */
  ghost predicate BothRead(d: Discipline, s: Shared, t: Shared, older: nat, newer: nat) {
    && older in s.handlers && newer in s.handlers && older != newer
    && Reaches(d, s, t) && In(t, older, Reading) && In(t, newer, Reading)
    && Tidy(t.overlay) && t.soaSerial == s.soaSerial && t.arrived == s.arrived && t.order == s.order + [newer]
    && t.handlers[older].serial == s.handlers[older].serial && t.handlers[newer].serial == s.handlers[newer].serial
  }

  /** `older` is between its two locks while `newer`, which arrived later, waits, and no lock is held. */
  ghost predicate Gap(s: Shared, older: nat, newer: nat) {
    && Before(s, older, newer) && In(s, older, Applied) && In(s, newer, Waiting)
    && s.writer == None && s.readers == {} && Harmless(s.handlers[newer].work)
  }

  lemma BothGetToRead(d: Discipline, s: Shared, older: nat, newer: nat) returns (t: Shared)
    requires Gap(s, older, newer) && s.handlers[newer].done == 0 && Tidy(s.overlay) && Fits(d, s, newer, LockWrite)
    ensures BothRead(d, s, t, older, newer)
  {
    hide Reaches, Harmless, Tidy, Fits, Before;
    var u := AppliesAll(d, s, newer);
    var v := Reads(d, u, older);
    t := Reads(d, v, newer);
    ReachesFurther(d, s, u, v);
    ReachesFurther(d, s, v, t);
  }

  /** Both handlers answered that all went well, and these are the serials that stay. */
  ghost predicate Ends(d: Discipline, s: Shared, t: Shared, older: nat, newer: nat, status: u32, soa: u32) {
    && Reaches(d, s, t) && In(t, older, Finished(Success)) && In(t, newer, Finished(Success))
    && t.arrived == s.arrived && t.status.serial == status && t.soaSerial == Some(soa)
  }

  lemma OlderSavesLast(d: Discipline, s: Shared, r: Shared, older: nat, newer: nat) returns (t: Shared)
    requires BothRead(d, s, r, older, newer) && s.soaSerial.Some?
    ensures Ends(d, s, t, older, newer, s.handlers[older].serial, s.handlers[older].serial)
  {
    hide Reaches, Tidy;
    var a := Saves(d, r, newer);
    var b := Answers(d, a, newer);
    var c := Saves(d, b, older);
    t := Answers(d, c, older);
    ReachesFurther(d, s, r, a);
    ReachesFurther(d, s, a, b);
    ReachesFurther(d, s, b, c);
    ReachesFurther(d, s, c, t);
  }

  lemma OlderAnswersLast(d: Discipline, s: Shared, r: Shared, older: nat, newer: nat) returns (t: Shared)
    requires BothRead(d, s, r, older, newer) && s.soaSerial.Some?
    ensures Ends(d, s, t, older, newer, s.handlers[newer].serial, s.handlers[older].serial)
  {
    hide Reaches, Tidy;
    var a := Saves(d, r, older);
    var b := Saves(d, a, newer);
    var c := Answers(d, b, newer);
    t := Answers(d, c, older);
    ReachesFurther(d, s, r, a);
    ReachesFurther(d, s, a, b);
    ReachesFurther(d, s, b, c);
    ReachesFurther(d, s, c, t);
  }

  /** Wherever an interleaving comes to a gap, it can go on so that both handlers answer that all went
      well and the serial of the one that arrived first stays, in the status and in the SOA; and it can
      go on so that the status and the SOA disagree. If it is the turn of `newer`, all this is in turn. */
  lemma GapLeavesOlder(d: Discipline, start: Shared, s: Shared, older: nat, newer: nat)
    returns (stale: Shared, split: Shared)
    requires Initial(start) && start.soaSerial.Some? && Reaches(ANYHOW, start, s)
    requires Gap(s, older, newer) && Fits(d, s, newer, LockWrite)
    ensures var first, second := s.handlers[older].serial, s.handlers[newer].serial;
            Ends(d, s, stale, older, newer, first, first) && Ends(d, s, split, older, newer, second, first)
  {
    ReachableInv(ANYHOW, start, s);
    hide Ends, Reaches, Fits, Before;
    var r := BothGetToRead(d, s, older, newer);
    hide Inv, BothRead, Gap;
    stale := OlderSavesLast(d, s, r, older, newer);
    split := OlderAnswersLast(d, s, r, older, newer);
  }

  // ---- out of turn

  /** Both handlers wait, `older` arrived first, no lock is held and no handler is between its locks. */
  ghost predicate BothWait(s: Shared, older: nat, newer: nat) {
    && Before(s, older, newer) && In(s, older, Waiting) && In(s, newer, Waiting) && older != newer
    && s.writer == None && s.readers == {} && NoneBetweenLocks(s)
    && Harmless(s.handlers[older].work) && Harmless(s.handlers[newer].work)
  }

  lemma RunsAlone(d: Discipline, s: Shared, h: nat) returns (t: Shared)
    requires In(s, h, Waiting) && s.handlers[h].done == 0 && s.writer == None && s.readers == {}
    requires Tidy(s.overlay) && Harmless(s.handlers[h].work) && Fits(d, s, h, LockWrite) && s.soaSerial.Some?
    ensures Reaches(d, s, t) && Tidy(t.overlay) && t.writer == None && t.readers == {} && t.arrived == s.arrived
    ensures t.handlers == s.handlers[h := s.handlers[h].(done := |s.handlers[h].work|, phase := Finished(Success))]
    ensures t.status.serial == s.handlers[h].serial && t.soaSerial == Some(s.handlers[h].serial)
  {
    hide Reaches, Harmless, Tidy, Fits;
    var u := AppliesAll(d, s, h);
    var v := Reads(d, u, h);
    var w := Saves(d, v, h);
    t := Answers(d, w, h);
    ReachesFurther(d, s, u, v);
    ReachesFurther(d, s, v, w);
    ReachesFurther(d, s, w, t);
  }

  /** Wherever two handlers wait, an interleaving can go on without a gap, but out of turn, so that both
      answer that all went well and the serial of the one that arrived first stays, in the status and
      in the SOA. */
  lemma OutOfTurnLeavesOlder(start: Shared, s: Shared, older: nat, newer: nat) returns (stale: Shared)
    requires Initial(start) && start.soaSerial.Some? && Reaches(ANYHOW, start, s) && BothWait(s, older, newer)
    ensures Ends(GAPLESS, s, stale, older, newer, s.handlers[older].serial, s.handlers[older].serial)
  {
    ReachableInv(ANYHOW, start, s);
    hide Reaches, Tidy, Harmless, Before;
    var t := RunsAlone(GAPLESS, s, newer);
    stale := RunsAlone(GAPLESS, t, older);
    ReachesFurther(GAPLESS, s, t, stale);
  }

  // ---- any two updates

  lemma {:induction false} Loosen(d: Discipline, s: Shared, t: Shared)
    requires Reaches(d, s, t)
    ensures Reaches(ANYHOW, s, t)
  {
    var states, actors, actions :|
      && Steps(states, actors, actions) && Keeps(d, states, actors, actions)
      && states[0] == s && states[|states| - 1] == t;
    assert Keeps(ANYHOW, states, actors, actions);
  }

  /** Two updates arrive, the first before the second. */
  datatype Two = Two(section: seq<RR>, questions: nat, first: u32, section': seq<RR>, questions': nat, second: u32)

  ghost predicate ArrivedAs(t: Shared, two: Two) {
    && t.arrived == [0, 1] && 0 in t.handlers && 1 in t.handlers
    && t.handlers[0].section == two.section && t.handlers[0].serial == two.first
    && t.handlers[1].section == two.section' && t.handlers[1].serial == two.second
  }

  lemma Arrives(d: Discipline, s: Shared, h: nat, section: seq<RR>, questions: nat, serial: u32) returns (t: Shared)
    requires h !in s.handlers
    ensures Reaches(d, s, t)
    ensures t == s.(handlers := s.handlers[h := NewHandler(section, questions, serial)], arrived := s.arrived + [h])
  {
    t := s.(handlers := s.handlers[h := NewHandler(section, questions, serial)], arrived := s.arrived + [h]);
    OneStep(d, s, h, Arrive(section, questions, serial), t);
  }

  lemma GapIsReachable(s: Shared, two: Two) returns (t: Shared)
    requires Initial(s) && Harmless(two.section) && Harmless(two.section')
    ensures Reaches(IN_TURN, s, t) && Gap(t, 0, 1) && IsTurnOf(t, 1) && ArrivedAs(t, two)
  {
    TimesHarmless(two.section, two.questions);
    TimesHarmless(two.section', two.questions');
    hide Reaches, Harmless, Tidy;
    var a := Arrives(IN_TURN, s, 0, two.section, two.questions, two.first);
    var b := AppliesAll(IN_TURN, a, 0);
    t := Arrives(IN_TURN, b, 1, two.section', two.questions', two.second);
    ReachesFurther(IN_TURN, s, a, b);
    ReachesFurther(IN_TURN, s, b, t);
    assert t.arrived[0] == 0 && t.arrived[1] == 1;
  }

  lemma BothWaitIsReachable(s: Shared, two: Two) returns (t: Shared)
    requires Initial(s) && Harmless(two.section) && Harmless(two.section')
    ensures Reaches(GAPLESS, s, t) && BothWait(t, 0, 1) && ArrivedAs(t, two)
  {
    TimesHarmless(two.section, two.questions);
    TimesHarmless(two.section', two.questions');
    hide Reaches, Harmless, Tidy;
    var a := Arrives(GAPLESS, s, 0, two.section, two.questions, two.first);
    t := Arrives(GAPLESS, a, 1, two.section', two.questions', two.second);
    ReachesFurther(GAPLESS, s, a, t);
    assert t.arrived[0] == 0 && t.arrived[1] == 1;
  }

  /** Neither half of the discipline is enough. Whatever the zone and its status are at first, whatever
      two sections without an offender come in, and whatever their serials: both handlers can answer
      that all went well and leave the first serial in the status and in the SOA, taking the write lock
      in turn but with a gap, or without a gap but out of turn. With a gap the status can also show the
      second serial and the SOA the first. */
  lemma AnyTwoCanEndOutOfOrder(s: Shared, two: Two) returns (stale: Shared, split: Shared, turned: Shared)
    requires Initial(s) && s.soaSerial.Some? && Harmless(two.section) && Harmless(two.section')
    ensures Reaches(IN_TURN, s, stale) && Reaches(IN_TURN, s, split) && Reaches(GAPLESS, s, turned)
    ensures forall t :: t in {stale, split, turned} ==>
              t.arrived == [0, 1] && In(t, 0, Finished(Success)) && In(t, 1, Finished(Success))
    ensures stale.status.serial == two.first && stale.soaSerial == Some(two.first)
    ensures split.status.serial == two.second && split.soaSerial == Some(two.first)
    ensures turned.status.serial == two.first && turned.soaSerial == Some(two.first)
  {
    var g := GapIsReachable(s, two);
    var w := BothWaitIsReachable(s, two);
    hide Reaches, Gap, BothWait, Initial, Harmless;
    Loosen(IN_TURN, s, g);
    Loosen(GAPLESS, s, w);
    stale, split := GapLeavesOlder(IN_TURN, s, g, 0, 1);
    turned := OutOfTurnLeavesOlder(s, w, 0, 1);
    ReachesFurther(IN_TURN, s, g, stale);
    ReachesFurther(IN_TURN, s, g, split);
    ReachesFurther(GAPLESS, s, w, turned);
  }
}
