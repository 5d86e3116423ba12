/** The in-memory fixed-window rate limiter of lib/rate-limiter.ts: one table
    shared by every limiter, the admission step, the expiry sweep, and the
    client identity taken from proxy headers. Time is the millisecond clock
    reading `now`, passed in by the caller. */
module RateLimiter {
  import opened Wrappers
  import opened JsString

  /** A table entry: requests seen in the current window and when it ends. */
  datatype Entry = Entry(count: int, resetTime: int)

  /** What a limiter call returns; `retryAfter` is in whole seconds. */
  datatype Decision = Decision(allowed: bool, retryAfter: Option<int>)

  /** The optional fields of `RateLimiterConfig`. */
  datatype Config = Config(windowMs: Option<int>, maxRequests: Option<int>)

  /** The values a limiter closes over once the defaults are applied. */
  datatype Settings = Settings(windowMs: int, maxRequests: int)

  /** The decision of one call and the table it leaves behind. */
  datatype Outcome = Outcome(decision: Decision, entries: map<string, Entry>)

  const DefaultWindowMs := 60 * 1000
  const DefaultMaxRequests := 60

  /** `value || fallback` on an optional number: `undefined` and `0` are falsy. */
  function OrDefault(value: Option<int>, fallback: int): int {
    if value.None? || value.value == 0 then fallback else value.value
  }

  /** `rateLimit(config)`: an absent or zero field takes its default; any other
      value, negative ones included, is kept. */
  function Configure(config: Config): (s: Settings)
    ensures config.windowMs.None? || config.windowMs == Some(0) ==> s.windowMs == DefaultWindowMs
    ensures config.windowMs.Some? && config.windowMs.value != 0 ==> s.windowMs == config.windowMs.value
    ensures config.maxRequests.None? || config.maxRequests == Some(0) ==> s.maxRequests == DefaultMaxRequests
    ensures config.maxRequests.Some? && config.maxRequests.value != 0 ==> s.maxRequests == config.maxRequests.value
  {
    Settings(OrDefault(config.windowMs, DefaultWindowMs), OrDefault(config.maxRequests, DefaultMaxRequests))
  }

  /** `Math.ceil(d / 1000)` for an integer number of milliseconds `d`. */
  function CeilDiv1000(d: int): (r: int)
    ensures (r - 1) * 1000 < d <= r * 1000
  {
    if d % 1000 == 0 then d / 1000 else d / 1000 + 1
  }

  /** One call of the closure returned by `rateLimit`: a missing or expired
      entry (strictly `now > resetTime`) starts a new window; a live entry
      under the limit is counted; otherwise the call is refused. */
  function Step(entries: map<string, Entry>, id: string, now: int, windowMs: int, maxRequests: int): (o: Outcome)
    ensures o.decision.allowed <==> id !in entries || now > entries[id].resetTime || entries[id].count < maxRequests
    ensures o.decision.allowed <==> o.decision.retryAfter.None?
    ensures o.entries.Keys == entries.Keys + {id}
    ensures !o.decision.allowed ==> o.entries == entries
  {
    if id !in entries || now > entries[id].resetTime then
      Outcome(Decision(true, None), entries[id := Entry(1, now + windowMs)])
    else if entries[id].count < maxRequests then
      Outcome(Decision(true, None), entries[id := Entry(entries[id].count + 1, entries[id].resetTime)])
    else
      Outcome(Decision(false, Some(CeilDiv1000(entries[id].resetTime - now))), entries)
  }

  /** The table after the periodic sweep at time `now`. */
  function Swept(entries: map<string, Entry>, now: int): (r: map<string, Entry>)
    ensures forall k :: k in r <==> k in entries && !(now > entries[k].resetTime)
    ensures forall k :: k in r ==> r[k] == entries[k]
  {
    map k | k in entries && now <= entries[k].resetTime :: entries[k]
  }

  /** Every entry has been counted at least once and at most `bound` times. */
  ghost predicate CountsWithin(entries: map<string, Entry>, bound: int) {
    forall k :: k in entries ==> 1 <= entries[k].count <= bound
  }

  /** Every window ends no later than `deadline`. */
  ghost predicate WindowsEndBy(entries: map<string, Entry>, deadline: int) {
    forall k :: k in entries ==> entries[k].resetTime <= deadline
  }

  /** The sweep keeps both invariants: it only removes entries. */
  lemma SweptKeepsInvariants(entries: map<string, Entry>, now: int, bound: int, deadline: int)
    requires CountsWithin(entries, bound) && WindowsEndBy(entries, deadline)
    ensures CountsWithin(Swept(entries, now), bound) && WindowsEndBy(Swept(entries, now), deadline)
  {
  }

  /** No entry, or an expired one: the call starts a window of exactly one request. */
  lemma StepStartsWindow(entries: map<string, Entry>, id: string, now: int, windowMs: int, maxRequests: int)
    requires id !in entries || now > entries[id].resetTime
    ensures var o := Step(entries, id, now, windowMs, maxRequests);
      o.decision == Decision(true, None) && o.entries == entries[id := Entry(1, now + windowMs)]
  {
  }

  /** A live entry under the limit (`now == resetTime` is still live) gains
      exactly one request and keeps its window. */
  lemma StepCountsRequest(entries: map<string, Entry>, id: string, now: int, windowMs: int, maxRequests: int)
    requires id in entries && now <= entries[id].resetTime && entries[id].count < maxRequests
    ensures var o := Step(entries, id, now, windowMs, maxRequests);
      o.decision == Decision(true, None)
      && o.entries == entries[id := Entry(entries[id].count + 1, entries[id].resetTime)]
  {
  }

  /** A live entry at the limit is refused with a non-negative retry hint that
      covers the rest of its window, and the table is left as it was. */
  lemma StepRefuses(entries: map<string, Entry>, id: string, now: int, windowMs: int, maxRequests: int)
    requires id in entries && now <= entries[id].resetTime && entries[id].count >= maxRequests
    ensures var o := Step(entries, id, now, windowMs, maxRequests);
      && !o.decision.allowed && o.decision.retryAfter.Some?
      && 0 <= o.decision.retryAfter.value
      && entries[id].resetTime - now <= o.decision.retryAfter.value * 1000 < entries[id].resetTime - now + 1000
      && o.entries == entries
  {
  }

  /** A call changes the entry of its own identifier and no other. */
  lemma StepTouchesOnlyItsKey(entries: map<string, Entry>, id: string, now: int, windowMs: int, maxRequests: int)
    ensures var o := Step(entries, id, now, windowMs, maxRequests);
      && id in o.entries
      && (forall k :: k != id ==> (k in o.entries <==> k in entries))
      && (forall k :: k != id && k in entries ==> o.entries[k] == entries[k])
  {
  }

  /** With every limiter's `maxRequests` between 1 and `bound`, no count ever
      exceeds `bound`; the table is shared, so the bound is that of the most
      permissive limiter. */
  lemma StepKeepsCountsWithin(entries: map<string, Entry>, id: string, now: int, windowMs: int, maxRequests: int, bound: int)
    requires CountsWithin(entries, bound)
    requires 1 <= maxRequests <= bound
    ensures CountsWithin(Step(entries, id, now, windowMs, maxRequests).entries, bound)
  {
  }

  /** While the clock only moves forward and no limiter's window exceeds
      `maxWindowMs`, every window ends within `maxWindowMs` of the present. */
  lemma StepKeepsWindowsBounded(entries: map<string, Entry>, id: string, before: int, now: int, windowMs: int, maxRequests: int, maxWindowMs: int)
    requires WindowsEndBy(entries, before + maxWindowMs)
    requires before <= now && windowMs <= maxWindowMs
    ensures WindowsEndBy(Step(entries, id, now, windowMs, maxRequests).entries, now + maxWindowMs)
  {
  }

  /** Under that invariant the retry hint lies in `[0, ceil(maxWindowMs / 1000)]`. */
  lemma RetryAfterBounded(entries: map<string, Entry>, id: string, now: int, windowMs: int, maxRequests: int, maxWindowMs: int)
    requires WindowsEndBy(entries, now + maxWindowMs)
    requires !Step(entries, id, now, windowMs, maxRequests).decision.allowed
    ensures var r := Step(entries, id, now, windowMs, maxRequests).decision.retryAfter;
      r.Some? && 0 <= r.value <= CeilDiv1000(maxWindowMs)
  {
    var d := entries[id].resetTime - now;
    var r := CeilDiv1000(d);
    var w := CeilDiv1000(maxWindowMs);
    assert (r - 1) * 1000 < d <= maxWindowMs <= w * 1000;
  }

  /** The sweep is invisible to callers: at any later time every limiter call
      decides the same with or without it. */
  lemma SweepKeepsDecisions(entries: map<string, Entry>, sweptAt: int, id: string, now: int, windowMs: int, maxRequests: int)
    requires sweptAt <= now
    ensures Step(Swept(entries, sweptAt), id, now, windowMs, maxRequests).decision
         == Step(entries, id, now, windowMs, maxRequests).decision
  {
  }

  /** `swept` is `full` with some entries left out, each of which had expired
      by `sweptAt`. */
  ghost predicate SweptFrom(full: map<string, Entry>, swept: map<string, Entry>, sweptAt: int) {
    && (forall k :: k in swept ==> k in full && swept[k] == full[k])
    && (forall k :: k in full && k !in swept ==> full[k].resetTime < sweptAt)
  }

  /** The sweep leaves out only entries that had expired. */
  lemma SweptIsSweptFrom(entries: map<string, Entry>, sweptAt: int)
    ensures SweptFrom(entries, Swept(entries, sweptAt), sweptAt)
  {
  }

  /** A call at or after the sweep decides the same on both tables, and the
      tables it leaves behind are again equal up to entries that had expired. */
  lemma StepKeepsSweptFrom(full: map<string, Entry>, swept: map<string, Entry>, sweptAt: int, id: string, now: int, windowMs: int, maxRequests: int)
    requires SweptFrom(full, swept, sweptAt) && sweptAt <= now
    ensures Step(swept, id, now, windowMs, maxRequests).decision == Step(full, id, now, windowMs, maxRequests).decision
    ensures SweptFrom(Step(full, id, now, windowMs, maxRequests).entries, Step(swept, id, now, windowMs, maxRequests).entries, sweptAt)
  {
    if id in full && id !in swept {
      assert now > full[id].resetTime;
    }
  }

  /** The decisions of successive calls for one identifier at the given times. */
  function Run(entries: map<string, Entry>, id: string, times: seq<int>, windowMs: int, maxRequests: int): (ds: seq<Decision>)
    ensures |ds| == |times|
    decreases |times|
  {
    if times == [] then []
    else
      var o := Step(entries, id, times[0], windowMs, maxRequests);
      [o.decision] + Run(o.entries, id, times[1..], windowMs, maxRequests)
  }

  /** The table after successive calls for one identifier at the given times;
      no other identifier's entry changes. */
  function After(entries: map<string, Entry>, id: string, times: seq<int>, windowMs: int, maxRequests: int): (r: map<string, Entry>)
    ensures forall k :: k != id ==> (k in r <==> k in entries)
    ensures forall k :: k != id && k in r ==> r[k] == entries[k]
    ensures times != [] ==> id in r
    decreases |times|
  {
    if times == [] then entries
    else
      var o := Step(entries, id, times[0], windowMs, maxRequests);
      After(o.entries, id, times[1..], windowMs, maxRequests)
  }

  /** The sweep is invisible to every later run: calls made at or after it
      decide the same, and leave tables equal up to entries that had expired. */
  lemma {:induction false} SweepKeepsRuns(full: map<string, Entry>, swept: map<string, Entry>, sweptAt: int, id: string, times: seq<int>, windowMs: int, maxRequests: int)
    requires SweptFrom(full, swept, sweptAt)
    requires forall i :: 0 <= i < |times| ==> sweptAt <= times[i]
    ensures Run(swept, id, times, windowMs, maxRequests) == Run(full, id, times, windowMs, maxRequests)
    ensures SweptFrom(After(full, id, times, windowMs, maxRequests), After(swept, id, times, windowMs, maxRequests), sweptAt)
    decreases |times|
  {
    if times != [] {
      StepKeepsSweptFrom(full, swept, sweptAt, id, times[0], windowMs, maxRequests);
      SweepKeepsRuns(Step(full, id, times[0], windowMs, maxRequests).entries, Step(swept, id, times[0], windowMs, maxRequests).entries,
                     sweptAt, id, times[1..], windowMs, maxRequests);
    }
  }

  /** `k` more calls at one instant inside a live window with room for them
      raise its count by `k` and keep its end. */
  lemma {:induction false} LiveWindowCounts(entries: map<string, Entry>, id: string, t: int, k: nat, windowMs: int, maxRequests: int)
    requires id in entries && t <= entries[id].resetTime
    requires entries[id].count + k <= maxRequests
    ensures After(entries, id, seq(k, _ => t), windowMs, maxRequests)[id] == Entry(entries[id].count + k, entries[id].resetTime)
  {
    if k == 0 {
      assert seq(k, _ => t) == [];
    } else {
      var o := Step(entries, id, t, windowMs, maxRequests);
      assert o.entries[id] == Entry(entries[id].count + 1, entries[id].resetTime);
      assert seq(k, _ => t)[0] == t;
      assert seq(k, _ => t)[1..] == seq(k - 1, _ => t);
      LiveWindowCounts(o.entries, id, t, k - 1, windowMs, maxRequests);
    }
  }

  /** Calls inside a live window that already holds `count` requests: the first
      `maxRequests - count` are admitted and the rest refused. */
  lemma {:induction false} RunInLiveWindow(entries: map<string, Entry>, id: string, times: seq<int>, windowMs: int, maxRequests: int)
    requires id in entries && 1 <= entries[id].count
    requires forall i :: 0 <= i < |times| ==> times[i] <= entries[id].resetTime
    ensures forall i :: 0 <= i < |times| ==>
      Run(entries, id, times, windowMs, maxRequests)[i].allowed == (i < maxRequests - entries[id].count)
  {
    if times != [] {
      var o := Step(entries, id, times[0], windowMs, maxRequests);
      var rest := Run(o.entries, id, times[1..], windowMs, maxRequests);
      assert o.entries[id].resetTime == entries[id].resetTime;
      RunInLiveWindow(o.entries, id, times[1..], windowMs, maxRequests);
      var ds := Run(entries, id, times, windowMs, maxRequests);
      assert ds == [o.decision] + rest;
      forall i | 0 <= i < |ds| ensures ds[i].allowed == (i < maxRequests - entries[id].count) {
        if i == 0 {
          assert ds[0] == o.decision;
          assert o.decision.allowed == (entries[id].count < maxRequests);
        } else {
          assert ds[i] == rest[i - 1];
          assert rest[i - 1].allowed == (i - 1 < maxRequests - o.entries[id].count);
          if entries[id].count < maxRequests {
            assert o.entries[id].count == entries[id].count + 1;
          } else {
            assert o.entries == entries;
          }
        }
      }
    }
  }

  /** Fixed window: starting from no entry (or an expired one), all calls made
      before the new window ends are admitted up to `maxRequests`, and every
      call after that is refused. */
  lemma FixedWindowAdmitsMaxRequests(entries: map<string, Entry>, id: string, times: seq<int>, windowMs: int, maxRequests: int)
    requires times != []
    requires id !in entries || times[0] > entries[id].resetTime
    requires forall i :: 0 <= i < |times| ==> times[i] <= times[0] + windowMs
    ensures forall i :: 0 <= i < |times| ==>
      Run(entries, id, times, windowMs, maxRequests)[i].allowed == (i == 0 || i < maxRequests)
  {
    var o := Step(entries, id, times[0], windowMs, maxRequests);
    assert o.entries[id] == Entry(1, times[0] + windowMs);
    RunInLiveWindow(o.entries, id, times[1..], windowMs, maxRequests);
    var ds := Run(entries, id, times, windowMs, maxRequests);
    assert forall i :: 1 <= i < |ds| ==> ds[i] == Run(o.entries, id, times[1..], windowMs, maxRequests)[i - 1];
  }

  /** Three requests per minute: four calls at the same instant give
      allowed, allowed, allowed, refused with a 60-second hint. */
  lemma ThreePerMinute(id: string, t: int)
    ensures Run(map[], id, [t, t, t, t], 60000, 3) ==
      [Decision(true, None), Decision(true, None), Decision(true, None), Decision(false, Some(60))]
  {
    var e1 := map[id := Entry(1, t + 60000)];
    var e2 := map[id := Entry(2, t + 60000)];
    var e3 := map[id := Entry(3, t + 60000)];
    assert Step(map[], id, t, 60000, 3).entries == e1;
    assert Step(e1, id, t, 60000, 3).entries == e2;
    assert Step(e2, id, t, 60000, 3).entries == e3;
    assert Run(e3, id, [t], 60000, 3) == [Decision(false, Some(60))];
    assert [t, t][1..] == [t] && [t, t, t][1..] == [t, t] && [t, t, t, t][1..] == [t, t, t];
    assert Run(e2, id, [t, t], 60000, 3) == [Decision(true, None), Decision(false, Some(60))];
    assert Run(e1, id, [t, t, t], 60000, 3) == [Decision(true, None), Decision(true, None), Decision(false, Some(60))];
  }

  /** Limiters share the table: an identity that has made 30 requests through a
      60-per-minute limiter holds an entry of 30 for the whole window, and a
      20-per-minute limiter refuses it on that same table. */
  lemma SharedEntryAcrossLimiters(id: string, t: int)
    ensures var first := Run(map[], id, seq(30, _ => t), 60000, 60);
      forall i :: 0 <= i < 30 ==> first[i].allowed
    ensures After(map[], id, seq(30, _ => t), 60000, 60)[id] == Entry(30, t + 60000)
    ensures Step(After(map[], id, seq(30, _ => t), 60000, 60), id, t, 60000, 20).decision == Decision(false, Some(60))
  {
    FixedWindowAdmitsMaxRequests(map[], id, seq(30, _ => t), 60000, 60);
    var e1 := Step(map[], id, t, 60000, 60).entries;
    assert e1[id] == Entry(1, t + 60000);
    assert seq(30, _ => t)[0] == t;
    assert seq(30, _ => t)[1..] == seq(29, _ => t);
    LiveWindowCounts(e1, id, t, 29, 60000, 60);
  }

  /** The process-wide `rateLimitMap` with its two mutators. */
  class Table {
    var entries: map<string, Entry>

    constructor ()
      ensures entries == map[]
    {
      entries := map[];
    }

    /** The body of the limiter closure, with its settings passed in. */
    method Admit(id: string, now: int, windowMs: int, maxRequests: int) returns (d: Decision)
      modifies this
      ensures d == Step(old(entries), id, now, windowMs, maxRequests).decision
      ensures entries == Step(old(entries), id, now, windowMs, maxRequests).entries
    {
      if id !in entries || now > entries[id].resetTime {
        entries := entries[id := Entry(1, now + windowMs)];
        return Decision(true, None);
      }
      var entry := entries[id];
      if entry.count < maxRequests {
        entries := entries[id := entry.(count := entry.count + 1)];
        return Decision(true, None);
      }
      var retryAfter := CeilDiv1000(entry.resetTime - now);
      d := Decision(false, Some(retryAfter));
    }

    /** The callback of the ten-minute interval: delete every expired entry of
        a snapshot of the table. */
    method Sweep(now: int)
      modifies this
      ensures entries == Swept(old(entries), now)
    {
      var snapshot := entries;
      var pending := snapshot.Keys;
      while pending != {}
        invariant pending <= snapshot.Keys
        invariant entries == map k | k in snapshot && (k in pending || now <= snapshot[k].resetTime) :: snapshot[k]
        decreases pending
      {
        var key :| key in pending;
        if now > snapshot[key].resetTime {
          entries := entries - {key};
        }
        pending := pending - {key};
      }
    }
  }

  /** The closure `rateLimit(config)` returns: its settings and the shared table. */
  class Limiter {
    const settings: Settings
    const table: Table

    constructor (config: Config, table: Table)
      ensures settings == Configure(config) && this.table == table
    {
      settings := Configure(config);
      this.table := table;
    }

    method Check(identifier: string, now: int) returns (d: Decision)
      modifies table
      ensures var o := Step(old(table.entries), identifier, now, settings.windowMs, settings.maxRequests);
        d == o.decision && table.entries == o.entries
    {
      d := table.Admit(identifier, now, settings.windowMs, settings.maxRequests);
    }
  }

  /** The proxy headers `getClientIdentifier` reads; `None` is a missing header. */
  datatype Headers = Headers(forwardedFor: Option<string>, realIp: Option<string>, cfConnectingIp: Option<string>)

  /** `s.split(',')[0]`: everything before the first comma. */
  function FirstSegment(s: string): (r: string)
    ensures |r| <= |s| && r == s[..|r|]
    ensures forall i :: 0 <= i < |r| ==> r[i] != ','
    ensures |r| < |s| ==> s[|r|] == ','
  {
    if s == [] || s[0] == ',' then [] else [s[0]] + FirstSegment(s[1..])
  }

  /** `getClientIdentifier`: the CDN header, else the real-IP header, else the
      first entry of the forwarded-for list, else "unknown"; never empty. */
  function ClientIdentifier(h: Headers): (r: string)
    ensures r != []
    ensures Truthy(h.cfConnectingIp) ==> r == h.cfConnectingIp.value
    ensures !Truthy(h.cfConnectingIp) && Truthy(h.realIp) ==> r == h.realIp.value
    ensures !Truthy(h.cfConnectingIp) && !Truthy(h.realIp) && h.forwardedFor.Some? && FirstSegment(h.forwardedFor.value) != [] ==>
      r == FirstSegment(h.forwardedFor.value)
    ensures !Truthy(h.cfConnectingIp) && !Truthy(h.realIp) && (h.forwardedFor.None? || FirstSegment(h.forwardedFor.value) == []) ==>
      r == "unknown"
  {
    if Truthy(h.cfConnectingIp) then h.cfConnectingIp.value
    else if Truthy(h.realIp) then h.realIp.value
    else if h.forwardedFor.Some? && FirstSegment(h.forwardedFor.value) != [] then FirstSegment(h.forwardedFor.value)
    else "unknown"
  }
}
