/** Update handlers of one zone running at the same time, under the read-write lock of its overlay.
    Any interleaving of their steps is allowed that the lock allows. */
module Concurrency {
  import opened Wrappers
  import opened Dns
  import opened ZoneValue
  import opened Update
  import opened Cluster

  datatype Phase =
    | Waiting                        // wants the write lock
    | Applying                       // holds it
    | Applied                        // gave it back, wants the read lock
    | Reading                        // holds the read lock, and does so until it answers
    | Snapped(texts: seq<Entry>)     // printed the overlay into the object it read
    | Saved                          // wrote the object's status
    | Finished(code: Rcode)

  /** `work` is the section once for every question, `done` how much of it is applied. */
  datatype Handler = Handler(
    section: seq<RR>, questions: nat, serial: u32, work: seq<RR>, done: nat, phase: Phase)

  /** `arrived` lists the handlers as they took their serials from the clock, `order` as they got the
      write lock, and `saved` says how many of them had had it when the status was last written. Who
      wrote it is `lastWriter`, and who set the SOA serial last is `soaSetter`, if anyone. */
  datatype Shared = Shared(
    overlay: ZoneVal, status: Status, soaSerial: Option<u32>,
    writer: Option<nat>, readers: set<nat>, handlers: map<nat, Handler>,
    arrived: seq<nat>, order: seq<nat>, saved: nat, lastWriter: Option<nat>, soaSetter: Option<nat>)

  datatype Action =
    | Arrive(section: seq<RR>, questions: nat, serial: u32)
    | LockWrite
    | ApplyOne
    | Reject
    | UnlockWrite
    | LockRead
    | NotFound
    | Snap(texts: seq<Entry>)
    | FailWrite
    | WriteStatus
    | Respond(replyOk: bool)

  predicate In(s: Shared, h: nat, p: Phase) {
    h in s.handlers && s.handlers[h].phase == p
  }

  function With(s: Shared, h: nat, p: Phase): map<nat, Handler>
    requires h in s.handlers
  {
    s.handlers[h := s.handlers[h].(phase := p)]
  }

  function Release(s: Shared, h: nat, code: Rcode): Shared
    requires h in s.handlers
  {
    s.(readers := s.readers - {h}, handlers := With(s, h, Finished(code)))
  }

  function NewHandler(section: seq<RR>, questions: nat, serial: u32): Handler {
    Handler(section, questions, serial, Times(section, questions), 0, Waiting)
  }

  /** The last step of a handler that saved: it sets the SOA serial, if there is an SOA, and answers. */
  function Responded(s: Shared, h: nat, replyOk: bool): Shared
    requires h in s.handlers
  {
    if s.soaSerial == None then Release(s, h, ServerFailure)
    else Release(s, h, if replyOk then Success else ServerFailure)
           .(soaSerial := Some(s.handlers[h].serial), soaSetter := Some(h))
  }

  ghost predicate Next(s: Shared, h: nat, a: Action, t: Shared) {
    match a
    case Arrive(section, questions, serial) =>
      && h !in s.handlers
      && t == s.(handlers := s.handlers[h := NewHandler(section, questions, serial)], arrived := s.arrived + [h])
    case LockWrite =>
      && In(s, h, Waiting) && s.writer == None && s.readers == {}
      && t == s.(writer := Some(h), handlers := With(s, h, Applying), order := s.order + [h])
    case ApplyOne =>
      && In(s, h, Applying) && s.handlers[h].done < |s.handlers[h].work|
      && var me := s.handlers[h];
         && Verdict(me.work[me.done]) == None
         && t == s.(overlay := Apply(s.overlay, me.work[me.done]),
                    handlers := s.handlers[h := me.(done := me.done + 1)])
    case Reject =>
      && In(s, h, Applying) && s.handlers[h].done < |s.handlers[h].work|
      && var me := s.handlers[h];
         && Verdict(me.work[me.done]).Some?
         && t == s.(writer := None, handlers := With(s, h, Finished(Verdict(me.work[me.done]).value)))
    case UnlockWrite =>
      && In(s, h, Applying) && s.handlers[h].done == |s.handlers[h].work|
      && t == s.(writer := None, handlers := With(s, h, Applied))
    case LockRead =>
      && In(s, h, Applied) && s.writer == None
      && t == s.(readers := s.readers + {h}, handlers := With(s, h, Reading))
    case NotFound =>
      In(s, h, Reading) && t == Release(s, h, Refused)
    case Snap(texts) =>
      && In(s, h, Reading) && Snapshot(texts, s.overlay)
      && t == s.(handlers := With(s, h, Snapped(texts)))
    case FailWrite =>
      h in s.handlers && s.handlers[h].phase.Snapped? && t == Release(s, h, ServerFailure)
    case WriteStatus =>
      && h in s.handlers && s.handlers[h].phase.Snapped?
      && t == s.(status := Status(s.handlers[h].phase.texts, s.handlers[h].serial), handlers := With(s, h, Saved),
                 saved := |s.order|, lastWriter := Some(h))
    case Respond(replyOk) =>
      In(s, h, Saved) && t == Responded(s, h, replyOk)
  }

  /** No handler has arrived. The status need not stand for the overlay: a zone that is registered by
      reconciliation starts with an empty overlay whatever its status holds. */
  ghost predicate Initial(s: Shared) {
    && Tidy(s.overlay) && s.writer == None && s.readers == {} && s.handlers == map[]
    && s.arrived == [] && s.order == [] && s.saved == 0 && s.lastWriter == None && s.soaSetter == None
  }

  ghost predicate Steps(states: seq<Shared>, actors: seq<nat>, actions: seq<Action>) {
    && |states| == |actors| + 1 == |actions| + 1
    && forall i :: 0 <= i < |actions| ==> Next(states[i], actors[i], actions[i], states[i + 1])
  }

  ghost predicate Interleaving(states: seq<Shared>, actors: seq<nat>, actions: seq<Action>) {
    Steps(states, actors, actions) && Initial(states[0])
  }

  /** What the handlers of `order` applied, one whole handler after the other. */
  function Blocks(order: seq<nat>, handlers: map<nat, Handler>): seq<RR> {
    if order == [] then []
    else
      var h := order[|order| - 1];
      Blocks(order[..|order| - 1], handlers)
      + if h in handlers && handlers[h].done <= |handlers[h].work| then handlers[h].work[..handlers[h].done] else []
  }

  predicate Holds(p: Phase) {
    p.Reading? || p.Snapped? || p.Saved?
  }

  /** Who applies is the one writer, and no one reads meanwhile. */
  ghost predicate WriterAgrees(s: Shared) {
    && (s.writer.Some? ==> s.readers == {} && In(s, s.writer.value, Applying)
                           && s.saved < |s.order| && s.order[|s.order| - 1] == s.writer.value)
    && (forall h :: h in s.handlers && s.handlers[h].phase == Applying ==> s.writer == Some(h))
  }

  ghost predicate ReadersAgree(s: Shared) {
    forall h :: h in s.readers <==> h in s.handlers && Holds(s.handlers[h].phase)
  }

  /** Everyone who got the write lock is in the order, once. */
  ghost predicate OrderAgrees(s: Shared) {
    && (forall i, j :: 0 <= i < j < |s.order| ==> s.order[i] != s.order[j])
    && (forall h :: h in s.order <==> h in s.handlers && s.handlers[h].phase != Waiting)
    && s.saved <= |s.order|
  }

  ghost predicate LocksAgree(s: Shared) {
    WriterAgrees(s) && ReadersAgree(s) && OrderAgrees(s)
  }

  /** Only records that end no update are applied, and none before the write lock is held. */
  ghost predicate WorkBounded(s: Shared) {
    && (forall h :: h in s.handlers ==>
          s.handlers[h].done <= |s.handlers[h].work| && HarmlessTo(s.handlers[h].work, s.handlers[h].done))
    && (forall h :: h in s.handlers ==> s.handlers[h].work == Times(s.handlers[h].section, s.handlers[h].questions))
    && (forall h :: h in s.handlers && s.handlers[h].phase == Waiting ==> s.handlers[h].done == 0)
  }

  /** Who gave the write lock back has applied all of its section, or stopped at a record that ends
      the update and answered with its code. */
  ghost predicate Settled(me: Handler) {
    me.done < |me.work| ==>
      Verdict(me.work[me.done]).Some? && me.phase == Finished(Verdict(me.work[me.done]).value)
  }

  ghost predicate WorkDone(s: Shared) {
    forall h :: h in s.handlers && s.handlers[h].phase != Waiting && s.handlers[h].phase != Applying ==>
      Settled(s.handlers[h])
  }

  /** The overlay is the fold of the handlers' blocks in lock order, whoever reads has a snapshot of
      it, and once it is written the status is a snapshot of the fold of the first `saved` blocks. */
  ghost predicate DataAgrees(s: Shared, start: ZoneVal) {
    && s.saved <= |s.order|
    && s.overlay == ApplyAll(start, Blocks(s.order, s.handlers))
    && (forall h :: h in s.handlers && s.handlers[h].phase.Snapped? ==> Snapshot(s.handlers[h].phase.texts, s.overlay))
    && (s.lastWriter.Some? ==>
          Snapshot(s.status.dynamicRRs, ApplyAll(start, Blocks(s.order[..s.saved], s.handlers))))
  }

  /** Who wrote the status, or answered that all went well, is among the first `saved`. */
  ghost predicate Acknowledged(s: Shared) {
    s.saved <= |s.order| &&
    forall h :: h in s.handlers && (s.handlers[h].phase == Saved || s.handlers[h].phase == Finished(Success)) ==>
      h in s.order[..s.saved]
  }

  /** The persisted serial is the one of the handler that wrote last, and the SOA serial the one of
      the handler that set it last. The first to write is the first to set the SOA serial. */
  ghost predicate SerialAgrees(s: Shared) {
    && (s.lastWriter.Some? ==>
          s.lastWriter.value in s.handlers && s.status.serial == s.handlers[s.lastWriter.value].serial)
    && (s.soaSetter.Some? ==>
          s.soaSetter.value in s.handlers && s.soaSerial == Some(s.handlers[s.soaSetter.value].serial))
    && (s.soaSetter.Some? || s.saved > 0 ==> s.lastWriter.Some?)
    && (s.lastWriter.Some? && s.soaSetter == None && s.soaSerial.Some? ==> In(s, s.lastWriter.value, Saved))
  }

  ghost predicate Inv(s: Shared, start: ZoneVal) {
    LocksAgree(s) && WorkBounded(s) && WorkDone(s) && DataAgrees(s, start) && Acknowledged(s) && SerialAgrees(s)
  }

  lemma {:induction false} BlocksSame(order: seq<nat>, a: map<nat, Handler>, b: map<nat, Handler>)
    requires forall h :: h in order ==> h in a && h in b && a[h].work == b[h].work && a[h].done == b[h].done
    ensures Blocks(order, a) == Blocks(order, b)
  {
    if order != [] {
      BlocksSame(order[..|order| - 1], a, b);
    }
  }

  lemma NextWriter(s: Shared, h: nat, a: Action, t: Shared)
    requires WriterAgrees(s) && ReadersAgree(s) && OrderAgrees(s) && Next(s, h, a, t)
    ensures WriterAgrees(t)
  {
    hide Snapshot, Apply, Verdict, Times;
  }

  lemma NextReaders(s: Shared, h: nat, a: Action, t: Shared)
    requires ReadersAgree(s) && Next(s, h, a, t)
    ensures ReadersAgree(t)
  {
    hide Snapshot, Apply, Verdict, Times;
  }

  lemma NextOrder(s: Shared, h: nat, a: Action, t: Shared)
    requires OrderAgrees(s) && Next(s, h, a, t)
    ensures OrderAgrees(t)
  {
    hide Snapshot, Apply, Verdict, Times;
  }

  lemma NextBounded(s: Shared, h: nat, a: Action, t: Shared)
    requires WorkBounded(s) && Next(s, h, a, t)
    ensures WorkBounded(t)
  {
    hide Snapshot, Apply, Times, Verdict;
  }

  lemma NextWork(s: Shared, h: nat, a: Action, t: Shared)
    requires WorkDone(s) && Next(s, h, a, t)
    ensures WorkDone(t)
  {
    hide Snapshot, Apply, Times;
  }

  lemma NextSerial(s: Shared, h: nat, a: Action, t: Shared)
    requires SerialAgrees(s) && Acknowledged(s) && Next(s, h, a, t)
    ensures SerialAgrees(t)
  {
    hide Snapshot, Apply, Times, Verdict;
  }

  lemma NoVerdictIsSuccess(rr: RR)
    ensures Verdict(rr) != Some(Success)
  {}

  lemma NextAcknowledged(s: Shared, h: nat, a: Action, t: Shared)
    requires OrderAgrees(s) && Acknowledged(s) && Next(s, h, a, t)
    ensures Acknowledged(t)
  {
    hide Snapshot, Apply, Times, Verdict;
    if a.Reject? {
      NoVerdictIsSuccess(s.handlers[h].work[s.handlers[h].done]);
    } else if a.LockWrite? {
      assert t.order[..t.saved] == s.order[..s.saved];
    } else if a.WriteStatus? {
      assert t.order[..t.saved] == s.order;
      assert s.order[..s.saved] + s.order[s.saved..] == s.order;
    }
  }

  lemma ApplySnoc(v: ZoneVal, s: seq<RR>, rr: RR)
    ensures ApplyAll(v, s + [rr]) == Apply(ApplyAll(v, s), rr)
  {
    assert (s + [rr])[..|s|] == s;
  }

  lemma LastBlockGrows(order: seq<nat>, a: map<nat, Handler>, h: nat)
    requires order != [] && order[|order| - 1] == h && h !in order[..|order| - 1]
    requires forall x :: x in order ==> x in a
    requires a[h].done < |a[h].work|
    ensures Blocks(order, a[h := a[h].(done := a[h].done + 1)]) == Blocks(order, a) + [a[h].work[a[h].done]]
  {
    var b := a[h := a[h].(done := a[h].done + 1)];
    BlocksSame(order[..|order| - 1], a, b);
    assert b[h].work[..b[h].done] == a[h].work[..a[h].done] + [a[h].work[a[h].done]];
  }

  lemma WriterIsLast(s: Shared, h: nat)
    requires LocksAgree(s) && In(s, h, Applying)
    ensures s.saved < |s.order| && s.order[|s.order| - 1] == h && s.writer == Some(h)
    ensures h !in s.order[..|s.order| - 1] && h !in s.order[..s.saved]
    ensures forall x :: x in s.order ==> x in s.handlers
    ensures forall x :: x in s.handlers ==> !s.handlers[x].phase.Snapped?
  {
    assert forall x :: x in s.handlers && Holds(s.handlers[x].phase) ==> x in s.readers;
  }

  lemma ApplyOneStep(s: Shared, h: nat, t: Shared)
    requires Next(s, h, ApplyOne, t)
    ensures In(s, h, Applying) && s.handlers[h].done < |s.handlers[h].work|
    ensures t == s.(overlay := Apply(s.overlay, s.handlers[h].work[s.handlers[h].done]),
                    handlers := s.handlers[h := s.handlers[h].(done := s.handlers[h].done + 1)])
  {}

  lemma DataAfterApplyOne(s: Shared, h: nat, t: Shared, start: ZoneVal)
    requires LocksAgree(s) && DataAgrees(s, start) && Next(s, h, ApplyOne, t)
    ensures DataAgrees(t, start)
  {
    hide Next, LocksAgree, Snapshot, Apply, ApplyAll, Blocks;
    ApplyOneStep(s, h, t);
    WriterIsLast(s, h);
    LastBlockGrows(s.order, s.handlers, h);
    BlocksSame(s.order[..s.saved], s.handlers, t.handlers);
    ApplySnoc(start, Blocks(s.order, s.handlers), s.handlers[h].work[s.handlers[h].done]);
  }

  lemma NewBlockIsEmpty(order: seq<nat>, a: map<nat, Handler>, b: map<nat, Handler>, h: nat)
    requires h in b && b[h].done == 0
    requires forall x :: x in order ==> x in a && x in b && a[x].work == b[x].work && a[x].done == b[x].done
    ensures Blocks(order + [h], b) == Blocks(order, a)
  {
    assert (order + [h])[..|order|] == order;
    BlocksSame(order, a, b);
  }

  lemma DataAfterLockWrite(s: Shared, h: nat, t: Shared, start: ZoneVal)
    requires LocksAgree(s) && WorkBounded(s) && DataAgrees(s, start) && Next(s, h, LockWrite, t)
    ensures DataAgrees(t, start)
  {
    hide Snapshot, Apply, Times, Verdict, ApplyAll, Blocks;
    NewBlockIsEmpty(s.order, s.handlers, t.handlers, h);
    BlocksSame(s.order[..s.saved], s.handlers, t.handlers);
    assert t.order[..t.saved] == s.order[..s.saved];
  }

  /** Apart from the three steps above, no step touches the overlay, the blocks or the status. */
  lemma OtherSteps(s: Shared, h: nat, a: Action, t: Shared)
    requires OrderAgrees(s) && Next(s, h, a, t) && !a.ApplyOne? && !a.LockWrite?
    ensures t.overlay == s.overlay && t.order == s.order
    ensures forall x :: x in s.order ==> x in s.handlers && x in t.handlers
                                         && s.handlers[x].work == t.handlers[x].work
                                         && s.handlers[x].done == t.handlers[x].done
    ensures forall x :: x in t.handlers && t.handlers[x].phase.Snapped? ==>
              || Snapshot(t.handlers[x].phase.texts, s.overlay)
              || (x in s.handlers && s.handlers[x].phase == t.handlers[x].phase)
    ensures if a.WriteStatus?
            then h in s.handlers && s.handlers[h].phase.Snapped?
                 && t.saved == |s.order| && t.status.dynamicRRs == s.handlers[h].phase.texts
            else t.saved == s.saved && t.status == s.status && t.lastWriter == s.lastWriter
  {
    hide Snapshot, Apply, Times, Verdict;
  }

  lemma DataAfterOther(s: Shared, h: nat, a: Action, t: Shared, start: ZoneVal)
    requires LocksAgree(s) && DataAgrees(s, start) && Next(s, h, a, t)
    requires !a.ApplyOne? && !a.LockWrite?
    ensures DataAgrees(t, start)
  {
    OtherSteps(s, h, a, t);
    hide LocksAgree, Next, Snapshot, Apply, ApplyAll, Blocks;
    BlocksSame(s.order, s.handlers, t.handlers);
    BlocksSame(s.order[..s.saved], s.handlers, t.handlers);
    assert s.order[..|s.order|] == s.order;
  }

  lemma NextInv(s: Shared, h: nat, a: Action, t: Shared, start: ZoneVal)
    requires Inv(s, start) && Next(s, h, a, t)
    ensures Inv(t, start)
  {
    hide Next, WriterAgrees, ReadersAgree, OrderAgrees, WorkBounded, WorkDone, DataAgrees, Acknowledged, SerialAgrees;
    NextWriter(s, h, a, t);
    NextReaders(s, h, a, t);
    NextOrder(s, h, a, t);
    NextBounded(s, h, a, t);
    NextWork(s, h, a, t);
    NextAcknowledged(s, h, a, t);
    NextSerial(s, h, a, t);
    match a
    case ApplyOne => DataAfterApplyOne(s, h, t, start);
    case LockWrite => DataAfterLockWrite(s, h, t, start);
    case _ => DataAfterOther(s, h, a, t, start);
  }

  lemma {:induction false} AlwaysInv(states: seq<Shared>, actors: seq<nat>, actions: seq<Action>, i: nat)
    requires Interleaving(states, actors, actions) && i < |states|
    ensures Inv(states[i], states[0].overlay)
  {
    if i == 0 {
      assert ApplyAll(states[0].overlay, []) == states[0].overlay;
    } else {
      AlwaysInv(states, actors, actions, i - 1);
      NextInv(states[i - 1], actors[i - 1], actions[i - 1], states[i], states[0].overlay);
    }
  }

  // ---- what is stored

  /** What the handlers of `order` get to apply, one whole handler after the other. */
  function Sections(order: seq<nat>, handlers: map<nat, Handler>): seq<RR> {
    if order == [] then []
    else
      var h := order[|order| - 1];
      Sections(order[..|order| - 1], handlers)
      + if h in handlers then Processed(handlers[h].section, handlers[h].questions) else []
  }

  /** A handler that gave the write lock back has applied what `Processed` says, all of it, and if a
      record ended the update, that record's code was the answer. */
  lemma BlockIsProcessed(s: Shared, h: nat)
    requires WorkBounded(s) && WorkDone(s) && h in s.handlers
    requires s.handlers[h].phase != Waiting && s.handlers[h].phase != Applying
    ensures var me := s.handlers[h];
            && me.done <= |me.work| && me.work[..me.done] == Processed(me.section, me.questions)
            && (Answer(me.section, me.questions).Some? ==>
                  me.phase == Finished(Answer(me.section, me.questions).value))
            && (me.phase == Finished(Success) ==> me.done == |me.work|)
  {
    var me := s.handlers[h];
    ProcessedOfTimes(me.section, me.questions, me.done);
  }

  lemma {:induction false} BlocksAreSections(s: Shared, order: seq<nat>)
    requires WorkBounded(s) && WorkDone(s)
    requires forall h :: h in order ==>
               h in s.handlers && s.handlers[h].phase != Waiting && s.handlers[h].phase != Applying
    ensures Blocks(order, s.handlers) == Sections(order, s.handlers)
  {
    if order != [] {
      hide WorkBounded, WorkDone, Processed, Answer;
      BlocksAreSections(s, order[..|order| - 1]);
      BlockIsProcessed(s, order[|order| - 1]);
    }
  }

  /** No one of the first `n` in lock order holds the write lock. */
  lemma PastTheLock(s: Shared, n: nat)
    requires LocksAgree(s) && n <= |s.order| && (s.writer.Some? ==> n < |s.order|)
    ensures forall h :: h in s.order[..n] ==>
              h in s.handlers && s.handlers[h].phase != Waiting && s.handlers[h].phase != Applying
  {
    forall h | h in s.order[..n]
      ensures h in s.handlers && s.handlers[h].phase != Waiting && s.handlers[h].phase != Applying
    {
      assert h in s.order;
    }
  }

  /** Each successful status write stores exactly what the overlay then is: the fold of what all
      handlers that had the write lock so far get to apply, in lock order, no handler in part. */
  lemma WriteStoresOverlay(states: seq<Shared>, actors: seq<nat>, actions: seq<Action>, i: nat)
    requires Interleaving(states, actors, actions) && i < |actions| && actions[i].WriteStatus?
    ensures var t := states[i + 1];
            && Snapshot(t.status.dynamicRRs, t.overlay)
            && t.overlay == ApplyAll(states[0].overlay, Sections(t.order, t.handlers))
            && t.writer == None && t.saved == |t.order|
            && t.status.serial == t.handlers[actors[i]].serial
  {
    AlwaysInv(states, actors, actions, i);
    AlwaysInv(states, actors, actions, i + 1);
    var t := states[i + 1];
    assert Next(states[i], actors[i], actions[i], t);
    assert t.order[..t.saved] == t.order;
    PastTheLock(t, |t.order|);
    BlocksAreSections(t, t.order);
  }

  lemma {:induction false} BlocksHarmless(order: seq<nat>, handlers: map<nat, Handler>)
    requires forall h :: h in handlers && handlers[h].done <= |handlers[h].work| ==>
               HarmlessTo(handlers[h].work, handlers[h].done)
    ensures forall i :: 0 <= i < |Blocks(order, handlers)| ==> Verdict(Blocks(order, handlers)[i]) == None
  {
    if order != [] {
      BlocksHarmless(order[..|order| - 1], handlers);
    }
  }

  lemma NextKeepsSoa(s: Shared, h: nat, a: Action, t: Shared)
    requires Next(s, h, a, t)
    ensures s.soaSerial.Some? == t.soaSerial.Some?
    ensures t.lastWriter == None ==> s.lastWriter == None && t.status == s.status
    ensures t.soaSetter == None ==> s.soaSetter == None && t.soaSerial == s.soaSerial
  {
    hide Snapshot, Apply, Times, Verdict;
  }

  lemma {:induction false} BeforeFirstWrite(states: seq<Shared>, actors: seq<nat>, actions: seq<Action>, i: nat)
    requires Interleaving(states, actors, actions) && i < |states|
    ensures states[i].soaSerial.Some? == states[0].soaSerial.Some?
    ensures states[i].lastWriter == None ==> states[i].status == states[0].status
    ensures states[i].soaSetter == None ==> states[i].soaSerial == states[0].soaSerial
  {
    if i > 0 {
      BeforeFirstWrite(states, actors, actions, i - 1);
      NextKeepsSoa(states[i - 1], actors[i - 1], actions[i - 1], states[i]);
    }
  }

  lemma PrefixSnapshot(s: Shared, start: ZoneVal)
    requires Inv(s, start) && s.lastWriter.Some?
    ensures Snapshot(s.status.dynamicRRs, ApplyAll(start, Sections(s.order[..s.saved], s.handlers)))
  {
    PastTheLock(s, s.saved);
    BlocksAreSections(s, s.order[..s.saved]);
  }

  lemma PrefixIsOverlay(s: Shared, start: ZoneVal)
    requires Inv(s, start) && Tidy(start) && start.soa == None && start.ns == []
    ensures var v := ApplyAll(start, Sections(s.order[..s.saved], s.handlers));
            Tidy(v) && v.origin == start.origin && v.soa == None && v.ns == []
  {
    var prefix := Blocks(s.order[..s.saved], s.handlers);
    PastTheLock(s, s.saved);
    BlocksAreSections(s, s.order[..s.saved]);
    ApplyAllTidy(start, prefix);
    BlocksHarmless(s.order[..s.saved], s.handlers);
    ApplyAllKeepsApex(start, prefix);
  }

  /** In every state of every interleaving, from the first status write on or from the beginning if the
      status stood for the overlay then, what is persisted replays to the fold of what the first
      `saved` handlers in lock order get to apply: a rejected one the records before its offender,
      every other one its whole section. */
  lemma PersistedIsPrefix(states: seq<Shared>, actors: seq<nat>, actions: seq<Action>, i: nat)
    requires Interleaving(states, actors, actions) && i < |states|
    requires states[0].overlay.soa == None && states[0].overlay.ns == []
    requires states[i].lastWriter.Some? || Snapshot(states[0].status.dynamicRRs, states[0].overlay)
    ensures var s := states[i];
            && s.saved <= |s.order|
            && Replay(states[0].overlay.origin, s.status.dynamicRRs)
               == ApplyAll(states[0].overlay, Sections(s.order[..s.saved], s.handlers))
  {
    AlwaysInv(states, actors, actions, i);
    BeforeFirstWrite(states, actors, actions, i);
    var s, start := states[i], states[0].overlay;
    PrefixIsOverlay(s, start);
    if s.lastWriter.Some? {
      PrefixSnapshot(s, start);
    }
    SnapshotReplays(s.status.dynamicRRs, ApplyAll(start, Sections(s.order[..s.saved], s.handlers)));
  }

  /** A handler that answered that all went well is in the persisted prefix, with its whole section
      once for every question. */
  lemma AcknowledgedIsPersisted(states: seq<Shared>, actors: seq<nat>, actions: seq<Action>, i: nat, h: nat)
    requires Interleaving(states, actors, actions) && i < |states|
    requires In(states[i], h, Finished(Success))
    ensures var s, me := states[i], states[i].handlers[h];
            && s.saved <= |s.order| && h in s.order[..s.saved]
            && Processed(me.section, me.questions) == Times(me.section, me.questions)
  {
    AlwaysInv(states, actors, actions, i);
    BlockIsProcessed(states[i], h);
  }
}
