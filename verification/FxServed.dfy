/** What a successful fetch is good for: the answers, rates and quotes it serves, and until when. */
module FxServed {
  import opened Common
  import opened FxRates
  import opened FxSchedules
  import opened FxQuote
  import Money

  // ---------- attempts ----------

  /** The first attempt that brings rates decides; only if none does is there no answer. */
  lemma {:induction false} RetriesExactly(base: string, replies: seq<Reply>, i: nat)
    ensures FirstReceived(base, replies).None? <==> forall k | 0 <= k < |replies| :: !replies[k].Reply?
    ensures i < |replies| && replies[i].Reply? && (forall k | 0 <= k < i :: !replies[k].Reply?) ==>
              FirstReceived(base, replies) == Received(base, replies[i])
  {
    hide Selected;
    if replies != [] {
      RetriesExactly(base, replies[1..], if i == 0 then 0 else i - 1);
      assert forall k | 0 <= k < |replies| - 1 :: replies[1..][k] == replies[k + 1];
      assert forall k | 1 <= k < |replies| :: replies[k] == replies[1..][k - 1];
    }
  }

  // ---------- a fetch ----------

  /** The i-th action ends the call `pid` with rates that it fetched itself. */
  ghost predicate FetchEnds(ttl: int, acts: seq<Action>, i: nat, pid: nat) {
    && i < |acts| && acts[i].Receive? && acts[i].pid == pid && pid in Run(ttl, acts[..i]).waiting
    && pid in Run(ttl, acts[..i + 1]).answers && Run(ttl, acts[..i + 1]).answers[pid].fetchedNow
  }

  /** The call `pid`, as it waits before the i-th action. */
  ghost function Call(ttl: int, acts: seq<Action>, i: nat, pid: nat): Waiting
    requires i <= |acts| && pid in Run(ttl, acts[..i]).waiting
  {
    Run(ttl, acts[..i]).waiting[pid]
  }

  predicate Wanted(c: string, base: string) { (c == "NGN" || c == "USD" || c == "EUR" || c == "GBP") && c != base }

  lemma SupportedAre(c: string)
    ensures c in SUPPORTED <==> c == "NGN" || c == "USD" || c == "EUR" || c == "GBP"
  {
    assert SUPPORTED == ["NGN"] + ["USD"] + ["EUR"] + ["GBP"];
  }

  /** Rates that arrive in time answer the call: of the table those of the other supported
      currencies, unchanged, dated when they were fetched and not stale. */
  lemma FetchAnswers(s: State, pid: nat, code: Option<string>, table: map<string, real>, time: int, now: int)
    requires pid in s.waiting && s.clock <= now && s.waiting[pid].started <= time <= now
    ensures var t, base := Next(s, Receive(pid, Reply(code, table, time), now)), s.waiting[pid].base;
            && pid in t.answers && t.answers[pid].fetchedNow && t.answers[pid].base == base
            && t.answers[pid].time == now
            && var d := t.answers[pid].data;
               && d.base == (if code.Some? then code.value else base) && d.updatedAt == time && !d.stale
               && forall c ::
                    && (c in d.rates <==> Wanted(c, base) && c in table)
                    && (c in d.rates ==> d.rates[c] == table[c])
  {
    var base := s.waiting[pid].base;
    forall c ensures c in Selected(table, base, SUPPORTED) <==> Wanted(c, base) && c in table {
      SupportedAre(c);
    }
  }

  /** A call that gets no rates is answered with the last good ones, marked, or not at all. */
  lemma FailureAnswers(s: State, pid: nat, reply: Reply, now: int)
    requires pid in s.waiting && pid !in s.answers && s.clock <= now && !reply.Reply?
    ensures var t := Next(s, Receive(pid, reply, now));
            && t.fx == s.fx && pid !in t.waiting
            && (pid in t.answers <==> s.fx.lastStale.Some?)
            && (pid in t.answers ==>
                  t.answers[pid].data == s.fx.lastStale.value.(stale := true) && !t.answers[pid].fetchedNow)
  {
  }

  /** A call that waits was asked for, and started, by an earlier action. */
  lemma {:induction false} WaitingWasAsked(ttl: int, acts: seq<Action>, n: nat, pid: nat)
    requires n <= |acts| && pid in Run(ttl, acts[..n]).waiting
    ensures exists h | 0 <= h < n :: acts[h] == Ask(pid, Call(ttl, acts, n, pid).base, Call(ttl, acts, n, pid).started)
  {
    assert n > 0;
    FxQuote.RunStep(ttl, acts, n - 1);
    var s := Run(ttl, acts[..n - 1]);
    StillWaiting(s, acts[n - 1], pid);
    hide Run, Next;
    if pid in s.waiting && s.waiting[pid] == Run(ttl, acts[..n]).waiting[pid] {
      WaitingWasAsked(ttl, acts, n - 1, pid);
    }
  }

  lemma StillWaiting(s: State, a: Action, pid: nat)
    requires pid in Next(s, a).waiting
    ensures var call := Next(s, a).waiting[pid];
            (pid in s.waiting && s.waiting[pid] == call) || a == Ask(pid, call.base, call.started)
  {
    hide Selected;
  }

  // ---------- what it serves ----------

  ghost predicate NoLaterFetch(ttl: int, acts: seq<Action>, i: nat, j: nat, base: string)
    requires i < j <= |acts|
  {
    forall k, q | i < k < j && FetchEnds(ttl, acts, k, q) :: Call(ttl, acts, k, q).base != base
  }

  lemma FetchIsCached(s: State, a: Action)
    requires a.Receive? && a.pid in s.waiting && a.pid in Next(s, a).answers && Next(s, a).answers[a.pid].fetchedNow
    requires a.pid !in s.answers
    ensures var t, call := Next(s, a), s.waiting[a.pid];
            && call.base in t.fx.cache
            && t.fx.cache[call.base] == CacheEntry(t.answers[a.pid].data, call.started + s.fx.ttl)
            && !t.answers[a.pid].data.stale
  {
    hide Selected;
  }

  lemma StepKeepsTtl(s: State, a: Action)
    ensures Next(s, a).fx.ttl == s.fx.ttl
  {
    hide Selected;
  }

  lemma {:induction false} TtlStays(ttl: int, acts: seq<Action>, n: nat)
    requires n <= |acts|
    ensures Run(ttl, acts[..n]).fx.ttl == ttl
  {
    if n > 0 {
      hide Run, Next;
      FxQuote.RunStep(ttl, acts, n - 1);
      TtlStays(ttl, acts, n - 1);
      StepKeepsTtl(Run(ttl, acts[..n - 1]), acts[n - 1]);
    }
  }

  /** The action ends a fetch for the base. */
  ghost predicate Renews(s: State, a: Action, base: string) {
    && a.Receive? && a.pid in s.waiting && s.waiting[a.pid].base == base
    && a.pid in Next(s, a).answers && Next(s, a).answers[a.pid].fetchedNow
  }

  lemma StepKeepsEntry(s: State, a: Action, base: string)
    requires !Renews(s, a, base) && base in s.fx.cache
    ensures base in Next(s, a).fx.cache && Next(s, a).fx.cache[base] == s.fx.cache[base]
    ensures Next(s, a).fx.ttl == s.fx.ttl
  {
    hide Selected;
  }

  lemma {:induction false} EntryIsKept(ttl: int, acts: seq<Action>, i: nat, j: nat, pid: nat)
    requires FetchEnds(ttl, acts, i, pid) && i < j <= |acts|
    requires NoLaterFetch(ttl, acts, i, j, Call(ttl, acts, i, pid).base)
    ensures var s, call := Run(ttl, acts[..j]), Call(ttl, acts, i, pid);
            && call.base in s.fx.cache && s.fx.ttl == ttl
            && s.fx.cache[call.base] == CacheEntry(Run(ttl, acts[..i + 1]).answers[pid].data, call.started + ttl)
    decreases j
  {
    hide Run, Next, Call;
    var base := Call(ttl, acts, i, pid).base;
    FxQuote.RunStep(ttl, acts, j - 1);
    if j == i + 1 {
      NotBoth(ttl, acts, i, pid);
      TtlStays(ttl, acts, i);
      CallIs(ttl, acts, i, pid);
      FetchIsCached(Run(ttl, acts[..i]), acts[i]);
      TtlStays(ttl, acts, j);
    } else {
      EntryIsKept(ttl, acts, i, j - 1, pid);
      if Renews(Run(ttl, acts[..j - 1]), acts[j - 1], base) {
        assert FetchEnds(ttl, acts, j - 1, acts[j - 1].pid);
        CallIs(ttl, acts, j - 1, acts[j - 1].pid);
      }
      StepKeepsEntry(Run(ttl, acts[..j - 1]), acts[j - 1], base);
    }
  }

  lemma CallIs(ttl: int, acts: seq<Action>, i: nat, pid: nat)
    requires i <= |acts| && pid in Run(ttl, acts[..i]).waiting
    ensures Call(ttl, acts, i, pid) == Run(ttl, acts[..i]).waiting[pid]
  {
  }

  lemma NotBoth(ttl: int, acts: seq<Action>, i: nat, pid: nat)
    requires i <= |acts| && pid in Run(ttl, acts[..i]).waiting
    ensures pid !in Run(ttl, acts[..i]).answers
  {
    AnswersAreJustified(ttl, acts[..i]);
  }

  /** Until the time to live has passed since the call that fetched them started, and while no later
      fetch for the base has ended, the fetched rates answer every call for that base in the step in
      which it is made, unmarked and without asking the provider; from then on a call waits. */
  lemma FetchedIsServedUntilItExpires(ttl: int, acts: seq<Action>, i: nat, j: nat, pid: nat, asking: nat, now: int)
    requires FetchEnds(ttl, acts, i, pid) && i < j <= |acts|
    requires NoLaterFetch(ttl, acts, i, j, Call(ttl, acts, i, pid).base)
    requires var s := Run(ttl, acts[..j]); asking !in s.waiting && asking !in s.answers && s.clock <= now
    ensures var s, call, d := Run(ttl, acts[..j]), Call(ttl, acts, i, pid), Run(ttl, acts[..i + 1]).answers[pid].data;
            var t := Next(s, Ask(asking, call.base, now));
            && !d.stale && t.fx == s.fx && t.fetches == s.fetches
            && (now < call.started + ttl ==>
                  t.waiting == s.waiting && t.answers == s.answers[asking := Answer(call.base, now, d, false)])
            && (now >= call.started + ttl ==>
                  t.answers == s.answers && t.waiting == s.waiting[asking := Waiting(call.base, now)])
  {
    hide Run, Call;
    EntryIsKept(ttl, acts, i, j, pid);
    FxQuote.RunStep(ttl, acts, i);
    NotBoth(ttl, acts, i, pid);
    FetchIsCached(Run(ttl, acts[..i]), acts[i]);
  }

  // ---------- the rate and the quote ----------

  /** The public and the debug quote of an answer, for a pair at a rate. */
  ghost predicate Quoted(fx: Fx, source: string, target: string, amount: Option<real>, now: int, replies: seq<Reply>,
                         d: Rates, rate: real, rateBase: string) {
    var quotes := BuildQuotes(fx, source, target, amount, now, replies);
    var debug := BuildQuoteDebug(fx, source, target, amount, now, replies);
    var quote := Quote(source, target, Money.Fixed8(rate), 0,
                       if amount.Some? then Some(Money.Fixed4(amount.value)) else None,
                       if amount.Some? then Some(Money.Credited(amount.value, rate)) else None);
    && quotes == (fx, Some([quote]))
    && debug == (fx, Some(DebugQuote([quote], d.stale, d.updatedAt, rateBase, Money.Fixed8(rate), 0)))
  }

  /** As long as fetched rates are served, every rate from their base is theirs, no other currency
      has one, equal currencies have rate 1, and quotes state it without a fee. */
  lemma FetchedRateIsUsed(ttl: int, acts: seq<Action>, i: nat, j: nat, pid: nat, target: string, amount: Option<real>,
                          now: int, replies: seq<Reply>)
    requires FetchEnds(ttl, acts, i, pid) && i < j <= |acts|
    requires NoLaterFetch(ttl, acts, i, j, Call(ttl, acts, i, pid).base)
    requires now < Call(ttl, acts, i, pid).started + ttl
    ensures var fx, base := Run(ttl, acts[..j]).fx, Call(ttl, acts, i, pid).base;
            var d := Run(ttl, acts[..i + 1]).answers[pid].data;
            && RateFor(fx, base, base, now, replies) == (fx, Some(1.0))
            && Quoted(fx, base, base, amount, now, replies, d, 1.0, base)
            && (target != base && target in d.rates ==>
                  && RateFor(fx, base, target, now, replies) == (fx, Some(d.rates[target]))
                  && Quoted(fx, base, target, amount, now, replies, d, d.rates[target], d.base))
            && (target != base && target !in d.rates ==>
                  && RateFor(fx, base, target, now, replies) == (fx, None)
                  && BuildQuotes(fx, base, target, amount, now, replies) == (fx, None)
                  && BuildQuoteDebug(fx, base, target, amount, now, replies) == (fx, None))
  {
    hide Run, Call, FirstReceived, Money.Fixed4, Money.Fixed8, Money.Credited;
    EntryIsKept(ttl, acts, i, j, pid);
  }
}
