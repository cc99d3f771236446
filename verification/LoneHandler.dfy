/** The update step of a request and the handler of the interleavings are the same: what one handler can
    do alone, from its arrival to its answer, is exactly an update step. */
module LoneHandler {
  import opened Wrappers
  import opened Dns
  import opened ZoneValue
  import opened Update
  import opened Cluster
  import opened Concurrency
  import opened SerialRaces
  import Requests = Steps

  function SerialIn(v: ZoneVal): Option<u32> {
    if v.soa == None then None else Some(v.soa.value.data.serial)
  }

  /** What handlers of `zone` share is what the system holds for it, with `key` as its object. */
  ghost predicate Matches(s: Shared, sys: Requests.System, zone: string, key: ObjectKey) {
    && zone in sys.replica.base && zone in sys.replica.overlay && key in sys.store
    && s.overlay == sys.replica.overlay[zone]
    && s.status == sys.store[key].status
    && s.soaSerial == SerialIn(sys.replica.base[zone])
  }

  // ---- every lone handler takes an update step

  ghost predicate Untouched(start: Shared, s: Shared) {
    s.status == start.status && s.soaSerial == start.soaSerial
  }

  ghost predicate Written(start: Shared, s: Shared, serial: u32) {
    Snapshot(s.status.dynamicRRs, s.overlay) && s.status.serial == serial
  }

  /** How a handler that worked alone since `start` may have ended. */
  ghost predicate Ended(start: Shared, s: Shared, me: Handler, code: Rcode) {
    || (me.done < |me.work| && Verdict(me.work[me.done]) == Some(code) && Untouched(start, s))
    || (me.done == |me.work| && (code == Refused || code == ServerFailure) && Untouched(start, s))
    || (me.done == |me.work| && Written(start, s, me.serial)
        && if start.soaSerial == None then s.soaSerial == None && code == ServerFailure
           else s.soaSerial == Some(me.serial) && (code == Success || code == ServerFailure))
  }

  /** `h` worked alone since `start`. */
  ghost predicate Alone(start: Shared, s: Shared, h: nat, section: seq<RR>, questions: nat, serial: u32) {
    h in s.handlers && var me := s.handlers[h];
    && me.section == section && me.questions == questions && me.serial == serial && me.work == Times(section, questions)
    && me.done <= |me.work| && HarmlessTo(me.work, me.done)
    && s.overlay == ApplyAll(start.overlay, me.work[..me.done])
    && match me.phase
       case Waiting => me.done == 0 && Untouched(start, s)
       case Applying => Untouched(start, s)
       case Snapped(texts) => me.done == |me.work| && Untouched(start, s) && Snapshot(texts, s.overlay)
       case Saved => me.done == |me.work| && s.soaSerial == start.soaSerial && Written(start, s, serial)
       case Finished(code) => Ended(start, s, me, code)
       case _ => me.done == |me.work| && Untouched(start, s)
  }

  lemma StaysAlone(
    start: Shared, s: Shared, h: nat, a: Action, t: Shared, section: seq<RR>, questions: nat, serial: u32)
    requires Alone(start, s, h, section, questions, serial) && Next(s, h, a, t)
    ensures Alone(start, t, h, section, questions, serial)
  {
    hide Snapshot, Apply, Times, ApplyAll;
    if a.ApplyOne? {
      var me := s.handlers[h];
      assert me.work[..me.done + 1] == me.work[..me.done] + [me.work[me.done]];
      ApplyNext(start.overlay, me.work[..me.done], me.work[me.done]);
    }
  }

  lemma {:induction false} AlwaysAlone(
    states: seq<Shared>, actors: seq<nat>, actions: seq<Action>, h: nat,
    section: seq<RR>, questions: nat, serial: u32, i: nat)
    requires Concurrency.Steps(states, actors, actions) && 0 < i < |states|
    requires forall j :: 0 <= j < |actors| ==> actors[j] == h
    requires actions[0] == Arrive(section, questions, serial)
    ensures Alone(states[0], states[i], h, section, questions, serial)
  {
    assert Next(states[i - 1], actors[i - 1], actions[i - 1], states[i]);
    if i == 1 {
      assert Times(section, questions)[..0] == [];
    } else {
      AlwaysAlone(states, actors, actions, h, section, questions, serial, i - 1);
      hide Next, Alone;
      StaysAlone(states[0], states[i - 1], h, actions[i - 1], states[i], section, questions, serial);
    }
  }

  lemma NoneReadable(store: Store, namespaces: seq<string>, name: string)
    ensures Find(store, namespaces, name, set n | n in namespaces) == None
  {
    FoundFirst(store, namespaces, name, set n | n in namespaces, |namespaces|);
  }

  /** What a lone handler has done at its end is an update step. */
  lemma EndIsUpdateStep(
    namespaces: seq<string>, pre: Requests.System, zone: string, key: ObjectKey, req: Requests.Request, millis: int,
    start: Shared, end: Shared, h: nat) returns (env: Requests.Env, post: Requests.System)
    requires Matches(start, pre, zone, key) && Find(pre.store, namespaces, TrimDot(zone), {}) == Some(key)
    requires Alone(start, end, h, req.section, |req.questions|, Requests.SerialOf(millis))
    requires end.handlers[h].phase.Finished?
    ensures zone in pre.replica.base && zone in pre.replica.overlay && env.millis == millis
    ensures Requests.UpdateStep(namespaces, pre, zone, req, env, post, end.handlers[h].phase.code)
    ensures Matches(end, post, zone, key)
  {
    var me, code := end.handlers[h], end.handlers[h].phase.code;
    var applied := Requests.System(Requests.AfterApply(pre.replica, zone, req), pre.store);
    ProcessedOfTimes(req.section, |req.questions|, me.done);
    hide Processed, Answer, Times, ApplyAll, Snapshot, Find, HarmlessTo, Verdict;
    env, post := Requests.Env(millis, {}, false, false), applied;
    if me.done == |me.work| {
      if Untouched(start, end) && code == Refused {
        NoneReadable(pre.store, namespaces, TrimDot(zone));
        env := env.(unreachable := set n | n in namespaces);
      } else if !(Untouched(start, end) && code == ServerFailure) {
        env := env.(writeOk := true, replyOk := code == Success);
        post := Requests.System(
          Requests.AfterBump(applied.replica, zone, me.serial),
          pre.store[key := pre.store[key].(status := end.status)]);
      }
    }
  }

  /** Every interleaving of a handler that is alone, from its arrival to its answer, is an update step. */
  lemma LoneHandlerIsUpdateStep(
    namespaces: seq<string>, pre: Requests.System, zone: string, key: ObjectKey, req: Requests.Request, millis: int,
    states: seq<Shared>, actors: seq<nat>, actions: seq<Action>, h: nat)
    returns (env: Requests.Env, post: Requests.System)
    requires Concurrency.Steps(states, actors, actions) && forall j :: 0 <= j < |actors| ==> actors[j] == h
    requires |actions| > 0 && actions[0] == Arrive(req.section, |req.questions|, Requests.SerialOf(millis))
    requires Matches(states[0], pre, zone, key) && Find(pre.store, namespaces, TrimDot(zone), {}) == Some(key)
    requires h in states[|actions|].handlers && states[|actions|].handlers[h].phase.Finished?
    ensures zone in pre.replica.base && zone in pre.replica.overlay && env.millis == millis
    ensures Requests.UpdateStep(namespaces, pre, zone, req, env, post, states[|actions|].handlers[h].phase.code)
    ensures Matches(states[|actions|], post, zone, key)
  {
    AlwaysAlone(states, actors, actions, h, req.section, |req.questions|, Requests.SerialOf(millis), |actions|);
    hide Concurrency.Steps, Alone, Matches, Requests.UpdateStep;
    env, post := EndIsUpdateStep(namespaces, pre, zone, key, req, millis, states[0], states[|actions|], h);
  }

  // ---- and every update step is taken by a lone handler

  lemma AppliesOne(s: Shared, h: nat) returns (t: Shared)
    requires In(s, h, Applying) && s.handlers[h].done < |s.handlers[h].work|
    requires Verdict(s.handlers[h].work[s.handlers[h].done]) == None
    ensures Reaches(ANYHOW, s, t)
    ensures t == s.(overlay := Apply(s.overlay, s.handlers[h].work[s.handlers[h].done]),
                    handlers := s.handlers[h := s.handlers[h].(done := s.handlers[h].done + 1)])
  {
    hide Apply, Reaches, Verdict;
    t := s.(overlay := Apply(s.overlay, s.handlers[h].work[s.handlers[h].done]),
            handlers := s.handlers[h := s.handlers[h].(done := s.handlers[h].done + 1)]);
    OneStep(ANYHOW, s, h, ApplyOne, t);
  }

  lemma ApplyUpTo(v: ZoneVal, work: seq<RR>, done: nat, n: nat)
    requires done <= n <= |work|
    ensures done == n ==> ApplyAll(v, work[done..n]) == v
    ensures done < n ==> ApplyAll(v, work[done..n]) == Apply(ApplyAll(v, work[done..n - 1]), work[n - 1])
  {
    if done < n {
      assert work[done..n] == work[done..n - 1] + [work[n - 1]];
      ApplyNext(v, work[done..n - 1], work[n - 1]);
    }
  }

  /** The handler that holds the write lock applies its records up to `n`. */
  lemma {:induction false} AppliesTo(s: Shared, h: nat, n: nat) returns (t: Shared)
    requires In(s, h, Applying) && s.handlers[h].done <= n <= |s.handlers[h].work| && HarmlessTo(s.handlers[h].work, n)
    ensures s == t || Reaches(ANYHOW, s, t)
    ensures t == s.(overlay := ApplyAll(s.overlay, s.handlers[h].work[s.handlers[h].done..n]),
                    handlers := s.handlers[h := s.handlers[h].(done := n)])
    decreases n
  {
    hide Reaches, Apply, ApplyAll, Verdict;
    var me := s.handlers[h];
    ApplyUpTo(s.overlay, me.work, me.done, n);
    if me.done == n {
      t := s;
    } else {
      var u := AppliesTo(s, h, n - 1);
      t := AppliesOne(u, h);
      if s != u {
        ReachesFurther(ANYHOW, s, u, t);
      }
    }
  }

  /** Where a handler stops applying. */
  lemma StopsAt(section: seq<RR>, questions: nat) returns (n: nat)
    ensures var work := Times(section, questions);
            && n <= |work| && HarmlessTo(work, n) && work[..n] == Processed(section, questions)
            && (Answer(section, questions) == if n < |work| then Verdict(work[n]) else None)
            && (n < |work| ==> Verdict(work[n]).Some?)
  {
    n := FirstOffence(Times(section, questions));
    ProcessedOfTimes(section, questions, n);
  }

  /** The handler arrives, takes the write lock and applies what it gets to apply. */
  lemma GetsToApply(s: Shared, h: nat, req: Requests.Request, serial: u32) returns (t: Shared)
    requires h !in s.handlers && s.writer == None && s.readers == {}
    ensures Reaches(ANYHOW, s, t) && In(t, h, Applying) && t.readers == {} && Untouched(s, t)
    ensures t.overlay == ApplyAll(s.overlay, Processed(req.section, |req.questions|))
    ensures var me := t.handlers[h];
            && me.serial == serial && me.done <= |me.work|
            && (Answer(req.section, |req.questions|) == if me.done < |me.work| then Verdict(me.work[me.done]) else None)
            && (me.done < |me.work| ==> Verdict(me.work[me.done]).Some?)
  {
    var n := StopsAt(req.section, |req.questions|);
    var a := Arrives(ANYHOW, s, h, req.section, |req.questions|, serial);
    var b := a.(writer := Some(h), handlers := With(a, h, Applying), order := a.order + [h]);
    hide Reaches, Processed, Answer, Times, ApplyAll, HarmlessTo, Verdict;
    OneStep(ANYHOW, a, h, LockWrite, b);
    t := AppliesTo(b, h, n);
    ReachesFurther(ANYHOW, s, a, b);
    if b != t {
      ReachesFurther(ANYHOW, s, b, t);
    }
    assert t.handlers[h].work[0..n] == t.handlers[h].work[..n];
  }

  /** Having applied all its section, it gives the write lock back and gets the read lock. */
  lemma GetsToRead(s: Shared, h: nat) returns (t: Shared)
    requires In(s, h, Applying) && s.readers == {} && s.handlers[h].done == |s.handlers[h].work|
    ensures Reaches(ANYHOW, s, t) && In(t, h, Reading) && Untouched(s, t) && t.overlay == s.overlay
    ensures t.handlers[h].serial == s.handlers[h].serial
  {
    var a := s.(writer := None, handlers := With(s, h, Applied));
    OneStep(ANYHOW, s, h, UnlockWrite, a);
    t := Reads(ANYHOW, a, h);
    hide Reaches;
    ReachesFurther(ANYHOW, s, a, t);
  }

  lemma Snaps(s: Shared, h: nat, texts: seq<Entry>) returns (t: Shared)
    requires In(s, h, Reading) && Snapshot(texts, s.overlay)
    ensures Reaches(ANYHOW, s, t) && t == s.(handlers := With(s, h, Snapped(texts)))
  {
    t := s.(handlers := With(s, h, Snapped(texts)));
    OneStep(ANYHOW, s, h, Snap(texts), t);
  }

  lemma Fails(s: Shared, h: nat) returns (t: Shared)
    requires In(s, h, Reading) && Tidy(s.overlay)
    ensures Reaches(ANYHOW, s, t) && In(t, h, Finished(ServerFailure)) && Untouched(s, t) && t.overlay == s.overlay
  {
    var texts := SnapshotExists(s.overlay);
    var a := Snaps(s, h, texts);
    t := Release(a, h, ServerFailure);
    hide Reaches, Snapshot;
    OneStep(ANYHOW, a, h, FailWrite, t);
    ReachesFurther(ANYHOW, s, a, t);
  }

  lemma Writes(s: Shared, h: nat, texts: seq<Entry>, replyOk: bool) returns (t: Shared)
    requires In(s, h, Reading) && Snapshot(texts, s.overlay)
    ensures Reaches(ANYHOW, s, t) && t.overlay == s.overlay
    ensures In(t, h, Finished(if s.soaSerial.Some? && replyOk then Success else ServerFailure))
    ensures t.status == Status(texts, s.handlers[h].serial)
    ensures t.soaSerial == if s.soaSerial == None then None else Some(s.handlers[h].serial)
  {
    var a := Snaps(s, h, texts);
    var b := a.(status := Status(texts, a.handlers[h].serial), handlers := With(a, h, Saved),
                saved := |a.order|, lastWriter := Some(h));
    t := Responded(b, h, replyOk);
    hide Reaches, Snapshot;
    OneStep(ANYHOW, a, h, WriteStatus, b);
    OneStep(ANYHOW, b, h, Respond(replyOk), t);
    ReachesFurther(ANYHOW, s, a, b);
    ReachesFurther(ANYHOW, s, b, t);
  }

  /** Every update step can be taken by a handler that is alone, with the same answer. */
  lemma UpdateStepIsLoneHandler(
    namespaces: seq<string>, pre: Requests.System, zone: string, key: ObjectKey, req: Requests.Request,
    env: Requests.Env, post: Requests.System, code: Rcode, s: Shared, h: nat) returns (t: Shared)
    requires Matches(s, pre, zone, key) && Tidy(s.overlay)
    requires h !in s.handlers && s.writer == None && s.readers == {}
    requires Requests.UpdateStep(namespaces, pre, zone, req, env, post, code)
    requires Find(pre.store, namespaces, TrimDot(zone), env.unreachable) in {None, Some(key)}
    ensures Reaches(ANYHOW, s, t) && In(t, h, Finished(code)) && Matches(t, post, zone, key)
  {
    var a := GetsToApply(s, h, req, Requests.SerialOf(env.millis));
    ApplyAllTidy(s.overlay, Processed(req.section, |req.questions|));
    if Answer(req.section, |req.questions|).Some? {
      t := a.(writer := None, handlers := With(a, h, Finished(code)));
      hide Reaches, Processed, Answer, ApplyAll, Snapshot, Tidy, Find, Verdict;
      OneStep(ANYHOW, a, h, Reject, t);
    } else {
      var applied := Requests.System(Requests.AfterApply(pre.replica, zone, req), pre.store);
      hide Reaches, Processed, Answer, ApplyAll, Snapshot, Tidy, Find, Verdict, Requests.SaveStep;
      t := SaveStepAlone(namespaces, applied, zone, key, env, post, code, a, h);
    }
    ReachesFurther(ANYHOW, s, a, t);
  }

  lemma SaveStepAlone(
    namespaces: seq<string>, pre: Requests.System, zone: string, key: ObjectKey,
    env: Requests.Env, post: Requests.System, code: Rcode, s: Shared, h: nat) returns (t: Shared)
    requires Matches(s, pre, zone, key) && Tidy(s.overlay)
    requires In(s, h, Applying) && s.readers == {} && s.handlers[h].done == |s.handlers[h].work|
    requires s.handlers[h].serial == Requests.SerialOf(env.millis)
    requires Requests.SaveStep(namespaces, pre, zone, env, post, code)
    requires Find(pre.store, namespaces, TrimDot(zone), env.unreachable) in {None, Some(key)}
    ensures Reaches(ANYHOW, s, t) && In(t, h, Finished(code)) && Matches(t, post, zone, key)
  {
    hide Reaches, Snapshot, Tidy, Find, TrimDot;
    var a := GetsToRead(s, h);
    if Find(pre.store, namespaces, TrimDot(zone), env.unreachable) == None {
      t := Release(a, h, Refused);
      OneStep(ANYHOW, a, h, NotFound, t);
    } else if !env.writeOk {
      t := Fails(a, h);
    } else {
      t := Writes(a, h, post.store[key].status.dynamicRRs, env.replyOk);
    }
    ReachesFurther(ANYHOW, s, a, t);
  }
}
