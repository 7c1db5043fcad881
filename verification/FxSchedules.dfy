/** Overlapping calls to `getRates`. A call looks into the cache when it starts; if that fails it
    waits for the provider, and other calls run in between, so a slow fetch may finish after a
    later one. */
module FxSchedules {
  import opened Common
  import opened FxRates

  /** A successful fetch: the base that was asked for, and what came back. */
  datatype Fetch = Fetch(base: string, data: Rates)

  datatype Answer = Answer(base: string, time: int, data: Rates, fetchedNow: bool)

  datatype Waiting = Waiting(base: string, started: int)

  /** `fetches` lists the successful fetches in the order in which they finished. */
  datatype State = State(fx: Fx, waiting: map<nat, Waiting>, answers: map<nat, Answer>, fetches: seq<Fetch>, clock: int)

  datatype Action =
    | Ask(pid: nat, base: string, now: int)
    | Receive(pid: nat, reply: Reply, now: int)

  function Start(ttl: int): State { State(Fx(ttl, map[], None), map[], map[], [], 0) }

  function Respond(s: State, pid: nat, base: string, now: int, data: Option<Rates>, fetchedNow: bool)
    : map<nat, Answer>
  {
    if data.Some? then s.answers[pid := Answer(base, now, data.value, fetchedNow)] else s.answers
  }

  /** Time does not run backwards, and a reply is dated between its request and its arrival. */
  function Next(s: State, a: Action): State {
    match a
    case Ask(pid, base, now) =>
      if now < s.clock || pid in s.waiting || pid in s.answers then s
      else
        var cached := Cached(s.fx, base, now);
        if cached.Some? then s.(answers := Respond(s, pid, base, now, cached, false), clock := now)
        else s.(waiting := s.waiting[pid := Waiting(base, now)], clock := now)
    case Receive(pid, reply, now) =>
      if now < s.clock || pid !in s.waiting || (reply.Reply? && !(s.waiting[pid].started <= reply.time <= now)) then s
      else
        var call := s.waiting[pid];
        var fetched := Received(call.base, reply);
        var (fx, data) := Finish(s.fx, call.base, call.started, fetched);
        State(fx, s.waiting - {pid}, Respond(s, pid, call.base, now, data, fetched.Some?),
              if fetched.Some? then s.fetches + [Fetch(call.base, fetched.value)] else s.fetches, now)
  }

  function Run(ttl: int, acts: seq<Action>): State {
    if acts == [] then Start(ttl) else Next(Run(ttl, acts[..|acts| - 1]), acts[|acts| - 1])
  }

  ghost predicate FetchedFor(fetches: seq<Fetch>, base: string, data: Rates) {
    exists i | 0 <= i < |fetches| :: fetches[i] == Fetch(base, data)
  }

  /** A fresh answer was fetched for its base, less than the time to live ago or by its own call;
      a stale one is a previous successful fetch, for whatever base. */
  ghost predicate Justified(s: State, a: Answer) {
    if a.data.stale then
      exists i | 0 <= i < |s.fetches| :: a.data == s.fetches[i].data.(stale := true)
    else
      FetchedFor(s.fetches, a.base, a.data) && (a.fetchedNow || a.time - a.data.updatedAt < s.fx.ttl)
  }

  ghost predicate Invariant(s: State) {
    && s.waiting.Keys !! s.answers.Keys
    && (forall i | 0 <= i < |s.fetches| :: !s.fetches[i].data.stale)
    && (forall base | base in s.fx.cache :: FetchedFor(s.fetches, base, s.fx.cache[base].data)
          && s.fx.cache[base].expiresAt - s.fx.ttl <= s.fx.cache[base].data.updatedAt)
    && (s.fx.lastStale == if s.fetches == [] then None else Some(s.fetches[|s.fetches| - 1].data))
    && (forall pid | pid in s.answers :: Justified(s, s.answers[pid]))
  }

  lemma MoreFetches(fetches: seq<Fetch>, f: Fetch, base: string, data: Rates)
    ensures FetchedFor(fetches, base, data) ==> FetchedFor(fetches + [f], base, data)
    ensures FetchedFor(fetches + [f], f.base, f.data)
  {
    if FetchedFor(fetches, base, data) {
      var i :| 0 <= i < |fetches| && fetches[i] == Fetch(base, data);
      assert (fetches + [f])[i] == Fetch(base, data);
    }
    assert (fetches + [f])[|fetches|] == f;
  }

  lemma JustifiedStays(s: State, t: State, a: Answer)
    requires Justified(s, a) && t.fx.ttl == s.fx.ttl
    requires t.fetches == s.fetches || exists f :: t.fetches == s.fetches + [f]
    ensures Justified(t, a)
  {
    if t.fetches != s.fetches {
      var f :| t.fetches == s.fetches + [f];
      MoreFetches(s.fetches, f, a.base, a.data);
      if a.data.stale {
        var i :| 0 <= i < |s.fetches| && a.data == s.fetches[i].data.(stale := true);
        assert t.fetches[i] == s.fetches[i];
      }
    }
  }

  lemma NewAnswerIsJustified(s: State, a: Action)
    requires Invariant(s) && a.pid in Next(s, a).answers && a.pid !in s.answers
    ensures Justified(Next(s, a), Next(s, a).answers[a.pid])
  {
    var t := Next(s, a);
    match a
    case Ask(pid, base, now) =>
      assert FetchedFor(s.fetches, base, s.fx.cache[base].data);
    case Receive(pid, reply, now) =>
      var base := s.waiting[pid].base;
      if Received(base, reply).Some? {
        var f := Fetch(base, Received(base, reply).value);
        MoreFetches(s.fetches, f, f.base, f.data);
        assert t.fetches == s.fetches + [f];
      } else {
        assert t.answers[pid].data == s.fetches[|s.fetches| - 1].data.(stale := true);
      }
  }

  lemma NextKeepsInvariant(s: State, a: Action)
    requires Invariant(s)
    ensures Invariant(Next(s, a))
  {
    var t := Next(s, a);
    if a.Receive? && t != s && Received(s.waiting[a.pid].base, a.reply).Some? {
      var f := Fetch(s.waiting[a.pid].base, Received(s.waiting[a.pid].base, a.reply).value);
      assert t.fetches == s.fetches + [f];
      forall base | base in t.fx.cache ensures FetchedFor(t.fetches, base, t.fx.cache[base].data) {
        MoreFetches(s.fetches, f, base, t.fx.cache[base].data);
      }
    }
    forall pid | pid in t.answers ensures Justified(t, t.answers[pid]) {
      if pid in s.answers {
        JustifiedStays(s, t, s.answers[pid]);
      } else {
        NewAnswerIsJustified(s, a);
      }
    }
  }

  /** In every schedule every answer is justified. */
  lemma {:induction false} AnswersAreJustified(ttl: int, acts: seq<Action>)
    ensures Invariant(Run(ttl, acts))
    ensures forall pid | pid in Run(ttl, acts).answers :: Justified(Run(ttl, acts), Run(ttl, acts).answers[pid])
  {
    if acts != [] {
      AnswersAreJustified(ttl, acts[..|acts| - 1]);
      NextKeepsInvariant(Run(ttl, acts[..|acts| - 1]), acts[|acts| - 1]);
    }
  }

  /** A call that nothing interrupts is `RatesFor`, whatever its attempts brought. */
  lemma UninterruptedCall(s: State, pid: nat, base: string, now: int, replies: seq<Reply>, reply: Reply, later: int)
    requires s.clock <= now <= later && pid !in s.waiting && pid !in s.answers
    requires Received(base, reply) == FirstReceived(base, replies) && (reply.Reply? ==> now <= reply.time <= later)
    ensures var t := Next(Next(s, Ask(pid, base, now)), Receive(pid, reply, later));
            && t.fx == RatesFor(s.fx, base, now, replies).0
            && (if pid in t.answers then Some(t.answers[pid].data) else None) == RatesFor(s.fx, base, now, replies).1
  {
    hide Received, FirstReceived;
  }

  // ---------- when the fallback fits ----------

  /** The provider names the base it was asked for, or none. */
  ghost predicate Echoes(s: State, a: Action) {
    a.Receive? && a.pid in s.waiting && a.reply.Reply? && a.reply.baseCode.Some? ==>
      a.reply.baseCode.value == s.waiting[a.pid].base
  }

  ghost predicate EchoingSchedule(ttl: int, acts: seq<Action>) {
    forall i | 0 <= i < |acts| :: Echoes(Run(ttl, acts[..i]), acts[i])
  }

  ghost predicate BasesNamed(s: State) {
    forall i | 0 <= i < |s.fetches| :: s.fetches[i].data.base == s.fetches[i].base
  }

  lemma NextNamesItsBase(s: State, a: Action)
    requires BasesNamed(s) && Echoes(s, a)
    ensures BasesNamed(Next(s, a))
  {
    hide Selected;
  }

  lemma {:induction false} FetchesNameTheirBase(ttl: int, acts: seq<Action>)
    requires EchoingSchedule(ttl, acts)
    ensures BasesNamed(Run(ttl, acts))
  {
    if acts != [] {
      var before, n := acts[..|acts| - 1], |acts| - 1;
      forall i | 0 <= i < |before| ensures Echoes(Run(ttl, before[..i]), before[i]) {
        assert before[..i] == acts[..i];
      }
      assert Echoes(Run(ttl, before), acts[n]);
      hide BasesNamed, Echoes, Next;
      FetchesNameTheirBase(ttl, before);
      NextNamesItsBase(Run(ttl, before), acts[n]);
    }
  }

  /** An answer, fresh or stale, was fetched for the base it was asked for exactly when it names
      that base; for a fresh one this is always so. */
  lemma AnswerFitsWhenItNamesTheBase(ttl: int, acts: seq<Action>, pid: nat)
    requires EchoingSchedule(ttl, acts) && pid in Run(ttl, acts).answers
    ensures var s, a := Run(ttl, acts), Run(ttl, acts).answers[pid];
            && (FetchedFor(s.fetches, a.base, a.data.(stale := false)) <==> a.data.base == a.base)
            && (!a.data.stale ==> a.data.base == a.base)
  {
    var s, a := Run(ttl, acts), Run(ttl, acts).answers[pid];
    AnswersAreJustified(ttl, acts);
    FetchesNameTheirBase(ttl, acts);
    hide Run;
    if a.data.stale {
      var i :| 0 <= i < |s.fetches| && a.data == s.fetches[i].data.(stale := true);
      assert s.fetches[i] == Fetch(s.fetches[i].base, a.data.(stale := false));
    }
  }

  /** A failed call is answered with the fetch that finished last, so it fits exactly when that
      fetch was for the same base. */
  lemma FallbackIsTheLastFetch(ttl: int, acts: seq<Action>, pid: nat, now: int)
    requires EchoingSchedule(ttl, acts)
    requires var s := Run(ttl, acts); pid in s.waiting && now >= s.clock && s.fetches != []
    ensures var s, t := Run(ttl, acts), Next(Run(ttl, acts), Receive(pid, Failed, now));
            var last := s.fetches[|s.fetches| - 1];
            && pid in t.answers && t.answers[pid].data == last.data.(stale := true)
            && (t.answers[pid].data.base == s.waiting[pid].base <==> last.base == s.waiting[pid].base)
  {
    AnswersAreJustified(ttl, acts);
    FetchesNameTheirBase(ttl, acts);
  }

  lemma RunFour(ttl: int, a: Action, b: Action, c: Action, d: Action)
    ensures Run(ttl, [a, b, c, d]) == Next(Next(Next(Next(Start(ttl), a), b), c), d)
  {
    hide Next;
    var acts := [a, b, c, d];
    assert acts[..3][..2] == [a, b] && [a, b][..1] == [a] && [a][..0] == [];
    assert Run(ttl, [a]) == Next(Start(ttl), a);
    assert Run(ttl, [a, b]) == Next(Run(ttl, [a]), b);
    assert Run(ttl, acts[..3]) == Next(Run(ttl, [a, b]), c);
  }

  const DOLLARS := Reply(None, map["EUR" := 0.9], 0)

  /** Dollar rates arrive; then naira rates are asked for and the provider fails. */
  const MIXED := [Ask(0, "USD", 0), Receive(0, DOLLARS, 0), Ask(1, "NGN", 0), Receive(1, Failed, 0)]

  lemma MixedRun()
    ensures var s := Run(300000, MIXED);
            1 in s.answers && s.answers[1] == Answer("NGN", 0, Received("USD", DOLLARS).value.(stale := true), false)
  {
    RunFour(300000, MIXED[0], MIXED[1], MIXED[2], MIXED[3]);
    var data := Received("USD", DOLLARS).value;
    var fx := Fx(300000, map["USD" := CacheEntry(data, 300000)], Some(data));
    hide Run, Selected;
    var s1 := Next(Start(300000), MIXED[0]);
    assert s1 == Start(300000).(waiting := map[0 := Waiting("USD", 0)]);
    var s2 := Next(s1, MIXED[1]);
    assert s2 == State(fx, map[], map[0 := Answer("USD", 0, data, true)], [Fetch("USD", data)], 0);
    var s3 := Next(s2, MIXED[2]);
    assert s3 == s2.(waiting := map[1 := Waiting("NGN", 0)]);
  }

  /** The fallback of one base can answer for another: a rate from dollars is given as one from naira. */
  lemma FallbackOfAnotherBase()
    ensures exists acts, pid ::
              && EchoingSchedule(300000, acts) && pid in Run(300000, acts).answers
              && var a := Run(300000, acts).answers[pid];
                 a.base == "NGN" && a.data.base == "USD" && RateIn(Some(a.data), "EUR") == Some(0.9)
  {
    MixedRun();
    assert SUPPORTED[2] == "EUR";
    assert EchoingSchedule(300000, MIXED);
  }
}
