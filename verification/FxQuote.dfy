/** Quotes, and their agreement with the conversion executed later. */
module FxQuote {
  import opened Common
  import opened FxRates
  import opened FxSchedules
  import Ledger
  import Money

  /** A quote item; amounts in ten-thousandths, the rate in hundred-millionths. */
  datatype Quote = Quote(source: string, target: string, rate: int, fee: int,
                         sendAmount: Option<int>, receivedAmount: Option<int>)

  datatype DebugQuote = DebugQuote(quotes: seq<Quote>, stale: bool, updatedAt: int, rateBase: string,
                                   midMarketRate: int, markupPercent: int)

  function BuildQuotes(fx: Fx, source: string, target: string, amount: Option<real>, now: int, replies: seq<Reply>)
    : (Fx, Option<seq<Quote>>)
  {
    var (after, context) := ContextFor(fx, source, target, now, replies);
    if context.None? then (after, None)
    else
      var rate := context.value.rate;
      var received := if amount.Some? then Some(Money.Credited(amount.value, rate)) else None;
      var sent := if amount.Some? then Some(Money.Fixed4(amount.value)) else None;
      (after, Some([Quote(source, target, Money.Fixed8(rate), 0, sent, received)]))
  }

  function BuildQuoteDebug(fx: Fx, source: string, target: string, amount: Option<real>, now: int, replies: seq<Reply>)
    : (Fx, Option<DebugQuote>)
  {
    var (after, context) := ContextFor(fx, source, target, now, replies);
    if context.None? then (after, None)
    else
      var rate := context.value.rate;
      var received := if amount.Some? then Some(Money.Credited(amount.value, rate)) else None;
      var sent := if amount.Some? then Some(Money.Fixed4(amount.value)) else None;
      var quote := Quote(source, target, Money.Fixed8(rate), 0, sent, received);
      (after, Some(DebugQuote([quote], context.value.stale, context.value.updatedAt, context.value.rateBase,
                              Money.Fixed8(rate), 0)))
  }

  /** The two states have the same entry for a base, unexpired at both times. */
  ghost predicate SameEntry(fx: Fx, now: int, fx': Fx, later: int, base: string) {
    && base in fx.cache && base in fx'.cache && fx.cache[base] == fx'.cache[base]
    && fx.cache[base].expiresAt > now && fx.cache[base].expiresAt > later
  }

  /** A conversion, trade or same-user transfer of this amount and pair. */
  predicate Exchanges(request: Ledger.Request, source: string, target: string, amount: real) {
    match request
    case FundRequest(_, _, _, _) => false
    case ConvertRequest(_, s, t, a, _) => (s, t, a) == (source, target, amount)
    case TradeRequest(_, s, t, a, _) => (s, t, a) == (source, target, amount)
    case TransferRequest(_, toUser, s, t, a, _) =>
      (toUser.None? || toUser.value == "") && (s, t, a) == (source, Some(target), amount)
      && Ledger.Supported(s) && Ledger.Supported(target)
  }

  ghost predicate Executes(p: Ledger.Plan, q: Quote) {
    && p.debit.Some? && q.sendAmount == Some(p.debit.value.amount) && q.receivedAmount == Some(p.credit.amount)
    && p.debit.value.account.currency == q.source && p.credit.account.currency == q.target
    && p.entries != [] && p.entries[0].rate == Some(q.rate) && Some(p.entries[0].amount) == q.sendAmount
  }

  /** Either both find a rate or neither does; the quoted amounts and rate are the executed ones,
      and the public and debug quotes coincide. Quoting fetches nothing. */
  ghost predicate Agree(fx: Fx, source: string, target: string, amount: real, now: int, replies: seq<Reply>,
                        request: Ledger.Request, env: Ledger.Environment) {
    var quotes := BuildQuotes(fx, source, target, Some(amount), now, replies);
    var debug := BuildQuoteDebug(fx, source, target, Some(amount), now, replies);
    && quotes.0 == fx && debug.0 == fx
    && (quotes.1.Some? <==> Ledger.PlanFor(request, env).Ok?)
    && (quotes.1.Some? <==> debug.1.Some?)
    && (quotes.1.Some? ==>
          |quotes.1.value| == 1 && debug.1.value.quotes == quotes.1.value
          && Executes(Ledger.PlanFor(request, env).value, quotes.1.value[0]))
  }

  lemma SameEntryAgrees(fx: Fx, now: int, fx': Fx, later: int, source: string, target: string, amount: real,
                        request: Ledger.Request, env: Ledger.Environment, replies: seq<Reply>, replies': seq<Reply>)
    requires SameEntry(fx, now, fx', later, source) && source != target
    requires env.rate == RateFor(fx', source, target, later, replies').1
    requires Exchanges(request, source, target, amount)
    ensures Agree(fx, source, target, amount, now, replies, request, env)
  {
    hide Money.Fixed4, Money.Fixed8, Money.Credited, Ledger.NormalizeKey, FirstReceived;
  }

  // ---------- in a run of calls ----------

  /** The action ends a successful fetch for the base. */
  ghost predicate Fetches(s: State, a: Action, base: string) {
    a.Receive? && a.pid in s.waiting && s.waiting[a.pid].base == base && Received(base, a.reply).Some?
  }

  ghost predicate NoFetch(ttl: int, acts: seq<Action>, i: nat, j: nat, base: string)
    requires i <= j <= |acts|
  {
    forall k | i <= k < j :: !Fetches(Run(ttl, acts[..k]), acts[k], base)
  }

  lemma StepKeepsEntry(s: State, a: Action, base: string)
    requires !Fetches(s, a, base)
    ensures base in Next(s, a).fx.cache <==> base in s.fx.cache
    ensures base in s.fx.cache ==> Next(s, a).fx.cache[base] == s.fx.cache[base]
  {
    hide Selected;
  }

  lemma RunStep(ttl: int, acts: seq<Action>, n: nat)
    requires n < |acts|
    ensures Run(ttl, acts[..n + 1]) == Next(Run(ttl, acts[..n]), acts[n])
  {
    hide Next;
    assert acts[..n + 1][..n] == acts[..n];
  }

  lemma {:induction false} EntryStays(ttl: int, acts: seq<Action>, i: nat, j: nat, base: string)
    requires i <= j <= |acts| && NoFetch(ttl, acts, i, j, base)
    ensures base in Run(ttl, acts[..j]).fx.cache <==> base in Run(ttl, acts[..i]).fx.cache
    ensures base in Run(ttl, acts[..i]).fx.cache ==>
              Run(ttl, acts[..j]).fx.cache[base] == Run(ttl, acts[..i]).fx.cache[base]
    decreases j
  {
    hide Run, Next, Fetches;
    if i < j {
      RunStep(ttl, acts, j - 1);
      EntryStays(ttl, acts, i, j - 1, base);
      StepKeepsEntry(Run(ttl, acts[..j - 1]), acts[j - 1], base);
    }
  }

  /** In a run of overlapping rate calls, a quote made after the first `i` actions, from an entry
      that a later request after `j` actions still finds unexpired, is what that request executes,
      if no fetch for the base ended in between. */
  lemma QuoteIsExecuted(ttl: int, acts: seq<Action>, i: nat, now: int, j: nat, later: int,
                        source: string, target: string, amount: real, request: Ledger.Request, env: Ledger.Environment,
                        replies: seq<Reply>, replies': seq<Reply>)
    requires i <= j <= |acts| && NoFetch(ttl, acts, i, j, source) && source != target
    requires var cache := Run(ttl, acts[..i]).fx.cache;
             source in cache && cache[source].expiresAt > now && cache[source].expiresAt > later
    requires env.rate == RateFor(Run(ttl, acts[..j]).fx, source, target, later, replies').1
    requires Exchanges(request, source, target, amount)
    ensures Agree(Run(ttl, acts[..i]).fx, source, target, amount, now, replies, request, env)
  {
    EntryStays(ttl, acts, i, j, source);
    hide Run, NoFetch, RateFor, Exchanges, Agree;
    SameEntryAgrees(Run(ttl, acts[..i]).fx, now, Run(ttl, acts[..j]).fx, later,
                    source, target, amount, request, env, replies, replies');
  }
}
