/** The client object: its HTTP session, renewed when stale, and the single
    cache slot shared by the two reference-data reads. */
module Client {
  import opened Base
  import opened PyStr
  import opened Values
  import opened RefData

  /** A wall-clock reading (`datetime.now()`), in microseconds. */
  type Time = int

  const MicrosPerSecond := 1_000_000
  const SecondsPerDay := 86_400
  const MicrosPerDay := SecondsPerDay * MicrosPerSecond

  /** The `session_refresh_interval` used when none is given. */
  const DefaultRefreshInterval := 120

  /** `(now - start).seconds`: Python splits a time difference into whole
      days, seconds within the day and microseconds, always with the seconds
      in 0..86399; `.seconds` is that middle part alone. */
  function ElapsedSeconds(now: Time, start: Time): int {
    ((now - start) % MicrosPerDay) / MicrosPerSecond
  }

  /** The elapsed value is always a second of a day. */
  lemma ElapsedSecondsRange(now: Time, start: Time)
    ensures 0 <= ElapsedSeconds(now, start) < SecondsPerDay
  {
  }

  /** Within one day of the session's start, the elapsed value is the number
      of whole seconds since then. */
  lemma ElapsedWithinDay(now: Time, start: Time)
    requires 0 <= now - start < MicrosPerDay
    ensures ElapsedSeconds(now, start) == (now - start) / MicrosPerSecond
  {
  }

  /** Whole days between the readings do not change the elapsed value. */
  lemma WholeDaysIgnored(now: Time, start: Time, days: int)
    ensures ElapsedSeconds(now + days * MicrosPerDay, start) == ElapsedSeconds(now, start)
  {
    var d := now - start;
    var r := d % MicrosPerDay;
    DayRemainder(d, d / MicrosPerDay, r);
    DayRemainder(now + days * MicrosPerDay - start, d / MicrosPerDay + days, r);
  }

  /** The remainder by a day is the unique one. */
  lemma DayRemainder(x: int, k: int, r: int)
    requires 0 <= r < MicrosPerDay && x == k * MicrosPerDay + r
    ensures x % MicrosPerDay == r
  {
  }

  /** So a session made a day and ten seconds ago counts as ten seconds old. */
  lemma DayOldSessionLooksFresh(start: Time)
    ensures ElapsedSeconds(start + MicrosPerDay + 10 * MicrosPerSecond, start) == 10
  {
    WholeDaysIgnored(start + 10 * MicrosPerSecond, start, 1);
  }

  /** A clock that steps back one second makes the session look almost a
      whole day old, hence stale under any interval up to a day. */
  lemma ClockStepBackLooksStale(start: Time)
    ensures ElapsedSeconds(start - MicrosPerSecond, start) == SecondsPerDay - 1
  {
    DayRemainder(-MicrosPerSecond, -1, MicrosPerDay - MicrosPerSecond);
  }

  /** What fetching a reference-data body yields: the dictionary read from
      it, or "no response received" when there is no body. */
  function ReadBody(response: Option<string>, rule: LineRule): Result<map<string, Value>> {
    match response
    case None => Err(NoResponse)
    case Some(body) => BuildDict(Lines(body), rule)
  }

  /** The `Nse` client. The HTTP session is represented by its identity: each
      new session gets the next number. */
  class Nse {
    const sessionRefreshInterval: int
    var session: nat
    var sessionInitTime: Time
    var codeCache: Option<map<string, Value>>

    /** `Nse(session_refresh_interval)`: opens the first session, whose
        warm-up request succeeded, at `now`; the cache starts empty. */
    constructor (sessionRefreshInterval: int, now: Time)
      ensures this.sessionRefreshInterval == sessionRefreshInterval
      ensures session == 0 && sessionInitTime == now && codeCache == None
    {
      this.sessionRefreshInterval := sessionRefreshInterval;
      session := 0;
      sessionInitTime := now;
      codeCache := None;
    }

    /** `Nse()` */
    constructor WithDefaultInterval(now: Time)
      ensures sessionRefreshInterval == DefaultRefreshInterval
      ensures session == 0 && sessionInitTime == now && codeCache == None
    {
      sessionRefreshInterval := DefaultRefreshInterval;
      session := 0;
      sessionInitTime := now;
      codeCache := None;
    }

    /** The staleness test of `fetch`. */
    predicate SessionIsFresh(now: Time)
      reads this
    {
      ElapsedSeconds(now, sessionInitTime) < sessionRefreshInterval
    }

    /** `create_session`: the new session is installed first; only when its
        warm-up request succeeds is the clock read (`now`) and stored. A
        failed warm-up raises with the new session in place and the old
        start time kept. */
    method CreateSession(now: Time, warmUpOk: bool) returns (r: Result<nat>)
      modifies this`session, this`sessionInitTime
      ensures session == old(session) + 1
      ensures r == if warmUpOk then Ok(session) else Err(Transport)
      ensures sessionInitTime == if warmUpOk then now else old(sessionInitTime)
    {
      session := session + 1;
      if !warmUpOk {
        return Err(Transport);
      }
      sessionInitTime := now;
      return Ok(session);
    }

    /** `fetch`: returns the session the request goes out on. A fresh session
        (as of the clock reading `now`) is reused and nothing changes;
        otherwise exactly one new session is created, which reads the clock
        again (`bootstrapNow`), and the request goes out on it. */
    method Fetch(now: Time, bootstrapNow: Time, warmUpOk: bool) returns (r: Result<nat>)
      modifies this`session, this`sessionInitTime
      ensures old(SessionIsFresh(now)) ==>
        session == old(session) && sessionInitTime == old(sessionInitTime) && r == Ok(session)
      ensures !old(SessionIsFresh(now)) ==>
        && session == old(session) + 1
        && r == (if warmUpOk then Ok(session) else Err(Transport))
        && sessionInitTime == (if warmUpOk then bootstrapNow else old(sessionInitTime))
    {
      if SessionIsFresh(now) {
        return Ok(session);
      }
      r := CreateSession(bootstrapNow, warmUpOk);
    }

    /** The cache policy both reference-data reads share: the server is read
        exactly when `cached` is false or the slot is empty; a read that
        yields a dictionary replaces the whole slot, and one that raises
        (no response, a bad line) leaves it as it was. `response` is what
        the server would answer. */
    method ReadThroughCache(cached: bool, response: Option<string>, rule: LineRule)
      returns (r: Result<map<string, Value>>, fetched: bool)
      modifies this`codeCache
      ensures fetched == (!cached || old(codeCache).None?)
      ensures !fetched ==> codeCache == old(codeCache) && r == Ok(codeCache.value)
      ensures fetched ==> r == ReadBody(response, rule)
      ensures fetched ==> codeCache == if r.Ok? then Some(r.value) else old(codeCache)
    {
      fetched := !cached || codeCache.None?;
      if fetched {
        if response.None? {
          return Err(NoResponse), fetched;
        }
        var dict := FillDict(Lines(response.value), rule);
        if dict.Err? {
          return dict, fetched;
        }
        codeCache := Some(dict.value);
      }
      r := Ok(codeCache.value);
    }

    /** `get_stock_codes(cached)`: code to name, through the shared slot. */
    method GetStockCodes(cached: bool, response: Option<string>)
      returns (r: Result<map<string, Value>>, fetched: bool)
      modifies this`codeCache
      ensures fetched == (!cached || old(codeCache).None?)
      ensures !fetched ==> codeCache == old(codeCache) && r == Ok(codeCache.value)
      ensures fetched ==> r == ReadBody(response, StockCodeLine)
      ensures fetched ==> codeCache == if r.Ok? then Some(r.value) else old(codeCache)
      ensures fetched ==> (r.Ok? <==> response.Some?)
    {
      r, fetched := ReadThroughCache(cached, response, StockCodeLine);
      if response.Some? {
        StockCodesNeverFail(Lines(response.value));
      }
    }

    /** `get_fno_lot_sizes(cached)`: symbol to lot size, through the same
        slot. */
    method GetFnoLotSizes(cached: bool, response: Option<string>)
      returns (r: Result<map<string, Value>>, fetched: bool)
      modifies this`codeCache
      ensures fetched == (!cached || old(codeCache).None?)
      ensures !fetched ==> codeCache == old(codeCache) && r == Ok(codeCache.value)
      ensures fetched ==> r == ReadBody(response, LotSizeLine)
      ensures fetched ==> codeCache == if r.Ok? then Some(r.value) else old(codeCache)
    {
      r, fetched := ReadThroughCache(cached, response, LotSizeLine);
    }

    /** `is_valid_code(code)`: `None` for an empty code, without touching
        anything; otherwise whether the upper-cased code is a key of the
        (cached, or else fetched) stock-code map. */
    method IsValidCode(code: string, response: Option<string>) returns (r: Result<Option<bool>>)
      modifies this`codeCache
      ensures code == "" ==> r == Ok(None) && codeCache == old(codeCache)
      ensures code != "" && old(codeCache).Some? ==>
        codeCache == old(codeCache) && r == Ok(Some(Upper(code) in old(codeCache).value))
      ensures code != "" && old(codeCache).None? && response.None? ==>
        codeCache == old(codeCache) && r == Err(NoResponse)
      ensures code != "" && old(codeCache).None? && response.Some? ==>
        var built := BuildDict(Lines(response.value), StockCodeLine);
        built.Ok? && codeCache == Some(built.value) && r == Ok(Some(Upper(code) in built.value))
    {
      if code == "" {
        return Ok(None);
      }
      var codes, _ := GetStockCodes(true, response);
      if codes.Err? {
        return Err(codes.error);
      }
      return Ok(Some(Upper(code) in codes.value));
    }
  }

  /** Two requests within the refresh interval of a new client go out on the
      same session. */
  method SessionReuse(start: Time, interval: int, later: Time, bootstrapNow: Time)
    returns (first: Result<nat>, second: Result<nat>)
    requires 0 <= later - start < MicrosPerDay
    requires (later - start) / MicrosPerSecond < interval
    ensures first == Ok(0) && second == Ok(0)
  {
    var client := new Nse(interval, start);
    ElapsedWithinDay(start, start);
    first := client.Fetch(start, bootstrapNow, true);
    ElapsedWithinDay(later, start);
    second := client.Fetch(later, bootstrapNow, true);
  }

  /** After the lot sizes are read, a cached stock-code read returns the lot
      sizes: both reads share one slot. */
  method SharedCacheSlot(now: Time, lotBody: string, codesBody: Option<string>)
    returns (codes: Result<map<string, Value>>, fetched: bool)
    requires BuildDict(Lines(lotBody), LotSizeLine).Ok?
    ensures !fetched && codes == BuildDict(Lines(lotBody), LotSizeLine)
  {
    var client := new Nse.WithDefaultInterval(now);
    var lots, _ := client.GetFnoLotSizes(false, Some(lotBody));
    codes, fetched := client.GetStockCodes(true, codesBody);
  }
}
