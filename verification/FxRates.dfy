/** Exchange rates: a cache with a time to live, three attempts, and the last good answer as a
    fallback. Times are milliseconds. */
module FxRates {
  import opened Common

  const SUPPORTED := ["NGN", "USD", "EUR", "GBP"]

  const RETRY_ATTEMPTS := 3

  /** A rates answer; `updatedAt` is when it was fetched. */
  datatype Rates = Rates(base: string, rates: map<string, real>, updatedAt: int, stale: bool)

  /** What one HTTP request to the provider brought, and when. */
  datatype Reply = Failed | WithoutRates | Reply(baseCode: Option<string>, table: map<string, real>, time: int)

  datatype CacheEntry = CacheEntry(data: Rates, expiresAt: int)

  datatype Fx = Fx(ttl: int, cache: map<string, CacheEntry>, lastStale: Option<Rates>)

  /** The supported currencies other than the base for which the table has a rate. */
  function Selected(table: map<string, real>, base: string, codes: seq<string>): (picked: map<string, real>)
    ensures forall c :: c in picked <==> c in codes && c != base && c in table
    ensures forall c | c in picked :: picked[c] == table[c]
  {
    if codes == [] then map[]
    else
      var code := codes[|codes| - 1];
      assert codes == codes[..|codes| - 1] + [code];
      var rest := Selected(table, base, codes[..|codes| - 1]);
      if code != base && code in table then rest[code := table[code]] else rest
  }

  lemma SelectedNone(table: map<string, real>, base: string)
    ensures Selected(table, base, []) == map[]
  {
  }

  lemma SelectedOneMore(table: map<string, real>, base: string, codes: seq<string>, code: string)
    ensures Selected(table, base, codes + [code]) ==
            var rest := Selected(table, base, codes);
            if code != base && code in table then rest[code := table[code]] else rest
  {
    assert (codes + [code])[..|codes|] == codes;
  }

  /** What an attempt yields. */
  function Received(base: string, reply: Reply): Option<Rates> {
    match reply
    case Reply(baseCode, table, time) =>
      Some(Rates(if baseCode.Some? then baseCode.value else base, Selected(table, base, SUPPORTED), time, false))
    case _ => None
  }

  /** The first success among the attempts. */
  function FirstReceived(base: string, replies: seq<Reply>): Option<Rates> {
    if replies == [] then None
    else if Received(base, replies[0]).Some? then Received(base, replies[0])
    else FirstReceived(base, replies[1..])
  }

  /** A cached answer that has not expired. */
  function Cached(fx: Fx, base: string, now: int): Option<Rates> {
    if base in fx.cache && fx.cache[base].expiresAt > now then Some(fx.cache[base].data) else None
  }

  /** The end of a call that had to ask the provider; `started` is when the call began. */
  function Finish(fx: Fx, base: string, started: int, fetched: Option<Rates>): (Fx, Option<Rates>) {
    match fetched
    case Some(data) =>
      (fx.(cache := fx.cache[base := CacheEntry(data, started + fx.ttl)], lastStale := Some(data)), Some(data))
    case None => (fx, match fx.lastStale case None => None case Some(data) => Some(data.(stale := true)))
  }

  /** A whole call to `getRates` on its own. */
  function RatesFor(fx: Fx, base: string, now: int, replies: seq<Reply>): (Fx, Option<Rates>) {
    if Cached(fx, base, now).Some? then (fx, Cached(fx, base, now))
    else Finish(fx, base, now, FirstReceived(base, replies))
  }

  function RateIn(answer: Option<Rates>, target: string): Option<real> {
    if answer.Some? && target in answer.value.rates then Some(answer.value.rates[target]) else None
  }

  function RateFor(fx: Fx, source: string, target: string, now: int, replies: seq<Reply>): (Fx, Option<real>) {
    if source == target then (fx, Some(1.0))
    else
      var (after, answer) := RatesFor(fx, source, now, replies);
      (after, RateIn(answer, target))
  }

  datatype RateContext = RateContext(rate: real, stale: bool, updatedAt: int, rateBase: string)

  function ContextFor(fx: Fx, source: string, target: string, now: int, replies: seq<Reply>)
    : (Fx, Option<RateContext>)
  {
    var (after, answer) := RatesFor(fx, source, now, replies);
    if answer.None? then (after, None)
    else if source == target then (after, Some(RateContext(1.0, answer.value.stale, answer.value.updatedAt, source)))
    else if target !in answer.value.rates then (after, None)
    else (after, Some(RateContext(answer.value.rates[target], answer.value.stale, answer.value.updatedAt,
                                  answer.value.base)))
  }

  /** The service: the cache map and the last good answer, updated in place. */
  class Service {
    const ttl: int
    var cache: map<string, CacheEntry>
    var lastStale: Option<Rates>

    function State(): Fx
      reads this
    {
      Fx(ttl, cache, lastStale)
    }

    constructor (ttlSeconds: int)
      ensures State() == Fx(ttlSeconds * 1000, map[], None)
    {
      ttl := ttlSeconds * 1000;
      cache, lastStale := map[], None;
    }

    method FetchFromApi(base: string, reply: Reply) returns (r: Option<Rates>)
      ensures r == Received(base, reply)
    {
      match reply
      case Failed => r := None;
      case WithoutRates => r := None;
      case Reply(baseCode, table, time) =>
        hide Selected;
        var rates: map<string, real> := map[];
        SelectedNone(table, base);
        for i := 0 to |SUPPORTED|
          invariant rates == Selected(table, base, SUPPORTED[..i])
        {
          var code := SUPPORTED[i];
          assert SUPPORTED[..i + 1] == SUPPORTED[..i] + [code];
          SelectedOneMore(table, base, SUPPORTED[..i], code);
          if code != base && code in table {
            rates := rates[code := table[code]];
          }
        }
        assert SUPPORTED[..|SUPPORTED|] == SUPPORTED;
        r := Some(Rates(if baseCode.Some? then baseCode.value else base, rates, time, false));
    }

    /** Up to three attempts; the replies are what the provider would answer to each. */
    method FetchWithRetry(base: string, replies: seq<Reply>) returns (r: Option<Rates>)
      requires |replies| == RETRY_ATTEMPTS
      ensures r == FirstReceived(base, replies)
    {
      for i := 0 to RETRY_ATTEMPTS
        invariant FirstReceived(base, replies[i..]) == FirstReceived(base, replies)
      {
        r := FetchFromApi(base, replies[i]);
        if r.Some? {
          return;
        }
        assert replies[i..][1..] == replies[i + 1..];
      }
      r := None;
    }

    method GetRates(base: string, now: int, replies: seq<Reply>) returns (r: Option<Rates>)
      requires |replies| == RETRY_ATTEMPTS
      modifies this
      ensures (State(), r) == RatesFor(old(State()), base, now, replies)
    {
      if base in cache && cache[base].expiresAt > now {
        return Some(cache[base].data);
      }
      var data := FetchWithRetry(base, replies);
      if data.Some? {
        cache := cache[base := CacheEntry(data.value, now + ttl)];
        lastStale := data;
        return data;
      }
      if lastStale.Some? {
        return Some(lastStale.value.(stale := true));
      }
      r := None;
    }

    method GetRate(source: string, target: string, now: int, replies: seq<Reply>) returns (r: Option<real>)
      requires |replies| == RETRY_ATTEMPTS
      modifies this
      ensures (State(), r) == RateFor(old(State()), source, target, now, replies)
    {
      if source == target {
        return Some(1.0);
      }
      var answer := GetRates(source, now, replies);
      r := if answer.Some? && target in answer.value.rates then Some(answer.value.rates[target]) else None;
    }

    method GetRateWithContext(source: string, target: string, now: int, replies: seq<Reply>)
        returns (r: Option<RateContext>)
      requires |replies| == RETRY_ATTEMPTS
      modifies this
      ensures (State(), r) == ContextFor(old(State()), source, target, now, replies)
    {
      var answer := GetRates(source, now, replies);
      if answer.None? {
        return None;
      }
      var data := answer.value;
      if source == target {
        return Some(RateContext(1.0, data.stale, data.updatedAt, source));
      }
      if target !in data.rates {
        return None;
      }
      r := Some(RateContext(data.rates[target], data.stale, data.updatedAt, data.base));
    }
  }
}
