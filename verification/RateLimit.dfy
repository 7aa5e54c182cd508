/** The per-key limiter of the control plane: token buckets that are forgotten when idle. */
module RateLimit {
  // nanoseconds
  const MINUTE := 60_000_000_000
  const TTL := 600_000_000_000

  /** Credit is counted in nanoseconds of refilling: a token is worth one interval. */
  datatype Bucket = Bucket(credit: int, last: int)
  datatype Visitor = Visitor(bucket: Bucket, lastSeen: int)
  datatype Config = Config(interval: nat, burst: nat)

  type Visitors = map<string, Visitor>

  function Max(a: int, b: int): int {
    if a > b then a else b
  }

  function Full(c: Config): int {
    c.burst * c.interval
  }

  /** The credit of a bucket at some time: refilled since its last event, never beyond the burst. */
  function Available(c: Config, b: Bucket, now: int): int {
    var credit := b.credit + Max(now - b.last, 0);
    if credit > Full(c) then Full(c) else credit
  }

  /** An interval of zero means no limit at all. */
  predicate Permits(c: Config, b: Bucket, now: int) {
    c.interval == 0 || Available(c, b, now) >= c.interval
  }

  function Spend(c: Config, b: Bucket, now: int): Bucket {
    if c.interval > 0 && Permits(c, b, now) then Bucket(Available(c, b, now) - c.interval, now) else b
  }

  function BucketOf(c: Config, visitors: Visitors, key: string, now: int): Bucket {
    if key in visitors then visitors[key].bucket else Bucket(Full(c), now)
  }

  function Seen(c: Config, visitors: Visitors, key: string, now: int): Visitors {
    visitors[key := Visitor(Spend(c, BucketOf(c, visitors, key, now), now), now)]
  }

  function Evicted(visitors: Visitors, now: int): Visitors {
    map key | key in visitors && !(visitors[key].lastSeen < now - TTL) :: visitors[key]
  }

  lemma OneInterval(c: Config)
    ensures c.interval <= Full(c) <==> 1 <= c.burst || c.interval == 0
  {
  }

  class Limiter {
    var visitors: Visitors
    const config: Config

    constructor (perMinute: int, burst: int)
      ensures visitors == map[] && config.burst == Max(burst, 1)
      ensures config.interval * Max(perMinute, 1) <= 60_000_000_000 < (config.interval + 1) * Max(perMinute, 1)
    {
      visitors := map[];
      config := Config(MINUTE / Max(perMinute, 1), Max(burst, 1));
    }

    method Allow(key: string, now: int) returns (ok: bool)
      modifies this`visitors
      ensures visitors == Seen(config, old(visitors), key, now)
      ensures ok <==> Permits(config, BucketOf(config, old(visitors), key, now), now)
      ensures config.interval == 0 ==> ok
      ensures key !in old(visitors) && 1 <= config.burst ==> ok
      ensures key in old(visitors) && 0 < config.interval ==>
                var b := old(visitors)[key].bucket;
                ok <==> config.interval <= b.credit + Max(now - b.last, 0) && 1 <= config.burst
      ensures key in visitors && visitors[key].lastSeen == now && visitors == old(visitors)[key := visitors[key]]
    {
      OneInterval(config);
      if key !in visitors {
        visitors := visitors[key := Visitor(Bucket(Full(config), now), now)];
      }
      var bucket := visitors[key].bucket;
      ok := Permits(config, bucket, now);
      visitors := visitors[key := Visitor(Spend(config, bucket, now), now)];
    }

    method Cleanup(now: int)
      modifies this`visitors
      ensures visitors == Evicted(old(visitors), now)
      ensures forall key :: key in visitors <==>
                key in old(visitors) && now - 600_000_000_000 <= old(visitors)[key].lastSeen
      ensures forall key :: key in visitors ==> visitors[key] == old(visitors)[key]
    {
      var cutoff := now - TTL;
      var keys := visitors.Keys;
      ghost var was := visitors;
      while keys != {}
        invariant keys <= was.Keys
        invariant visitors == map key | key in was && !(key !in keys && was[key].lastSeen < cutoff) :: was[key]
        decreases |keys|
      {
        var key :| key in keys;
        if visitors[key].lastSeen < cutoff {
          visitors := visitors - {key};
        }
        keys := keys - {key};
      }
    }
  }

  // ----- schedules of calls and clean-ups -----

  datatype Event = Call(key: string, now: int) | Sweep(now: int)

  /** One event; a limiter that keeps everything ignores the clean-ups. */
  function After(c: Config, evicts: bool, visitors: Visitors, e: Event): Visitors {
    match e
    case Call(key, now) => Seen(c, visitors, key, now)
    case Sweep(now) => if evicts then Evicted(visitors, now) else visitors
  }

  function Run(c: Config, evicts: bool, visitors: Visitors, events: seq<Event>): Visitors
    decreases |events|
  {
    if events == [] then visitors else Run(c, evicts, After(c, evicts, visitors, events[0]), events[1..])
  }

  predicate Granted(c: Config, visitors: Visitors, e: Event) {
    e.Call? && Permits(c, BucketOf(c, visitors, e.key, e.now), e.now)
  }

  /** The answers to the calls, in order. */
  function Answers(c: Config, evicts: bool, visitors: Visitors, events: seq<Event>): seq<bool>
    decreases |events|
  {
    if events == [] then []
    else
      (if events[0].Call? then [Granted(c, visitors, events[0])] else [])
      + Answers(c, evicts, After(c, evicts, visitors, events[0]), events[1..])
  }

  /** How many calls of a key are granted. */
  function Grants(c: Config, evicts: bool, visitors: Visitors, events: seq<Event>, key: string): nat
    decreases |events|
  {
    if events == [] then 0
    else
      (if Granted(c, visitors, events[0]) && events[0].key == key then 1 else 0)
      + Grants(c, evicts, After(c, evicts, visitors, events[0]), events[1..], key)
  }

  /** Time does not run backwards from start. */
  predicate Ordered(start: int, events: seq<Event>)
    decreases |events|
  {
    events != [] ==> start <= events[0].now && Ordered(events[0].now, events[1..])
  }

  // ----- eviction is invisible -----

  ghost predicate Kept(c: Config, evicting: Visitors, keeping: Visitors, now: int, key: string) {
    && (key in evicting ==>
          && key in keeping && evicting[key].lastSeen == keeping[key].lastSeen
          && (c.interval > 0 ==> evicting[key] == keeping[key]))
    && (key in keeping ==>
          var v := keeping[key];
          && v.bucket.last <= v.lastSeen <= now
          && 0 <= v.bucket.credit <= Full(c)
          && (key !in evicting ==> v.bucket.credit + (now - v.bucket.last) >= Full(c)))
  }

  /** Every bucket that only the keeping limiter has is full again. */
  ghost predicate Alike(c: Config, evicting: Visitors, keeping: Visitors, now: int) {
    forall key :: Kept(c, evicting, keeping, now, key)
  }

  lemma FullIsEnough(c: Config)
    requires c.burst >= 1
    ensures Full(c) >= c.interval && Full(c) >= 0
  {
  }

  lemma StaysAlike(c: Config, evicting: Visitors, keeping: Visitors, now: int, e: Event)
    requires c.burst >= 1 && Full(c) <= TTL + 1
    requires Alike(c, evicting, keeping, now) && now <= e.now
    ensures Granted(c, evicting, e) <==> Granted(c, keeping, e)
    ensures Alike(c, After(c, true, evicting, e), After(c, false, keeping, e), e.now)
  {
    FullIsEnough(c);
    hide Full;
    if e.Call? {
      assert Kept(c, evicting, keeping, now, e.key);
    }
    forall key
      ensures Kept(c, After(c, true, evicting, e), After(c, false, keeping, e), e.now, key)
    {
      assert Kept(c, evicting, keeping, now, key);
    }
  }

  lemma {:induction false} AnswersAlike(c: Config, evicting: Visitors, keeping: Visitors, now: int, events: seq<Event>, key: string)
    requires c.burst >= 1 && Full(c) <= TTL + 1
    requires Alike(c, evicting, keeping, now) && Ordered(now, events)
    ensures Answers(c, true, evicting, events) == Answers(c, false, keeping, events)
    ensures Grants(c, true, evicting, events, key) == Grants(c, false, keeping, events, key)
    decreases |events|
  {
    if events != [] {
      var e := events[0];
      hide Alike, After, Granted;
      StaysAlike(c, evicting, keeping, now, e);
      AnswersAlike(c, After(c, true, evicting, e), After(c, false, keeping, e), e.now, events[1..], key);
    }
  }

  function LastTime(start: int, events: seq<Event>): int {
    if events == [] then start else events[|events| - 1].now
  }

  lemma {:induction false} RunsAlike(c: Config, evicting: Visitors, keeping: Visitors, now: int, events: seq<Event>)
    requires c.burst >= 1 && Full(c) <= TTL + 1
    requires Alike(c, evicting, keeping, now) && Ordered(now, events)
    ensures Alike(c, Run(c, true, evicting, events), Run(c, false, keeping, events), LastTime(now, events))
    decreases |events|
  {
    if events != [] {
      var e := events[0];
      hide Alike, After;
      StaysAlike(c, evicting, keeping, now, e);
      RunsAlike(c, After(c, true, evicting, e), After(c, false, keeping, e), e.now, events[1..]);
      assert LastTime(now, events) == LastTime(e.now, events[1..]);
    }
  }

  // ----- how much is granted -----

  predicate Until(end: int, events: seq<Event>) {
    forall i :: 0 <= i < |events| ==> events[i].now <= end
  }

  predicate InCredit(visitors: Visitors, key: string) {
    key in visitors ==> visitors[key].bucket.credit >= 0
  }

  /** The credit of a key when an event has happened: less by one interval if it was granted. */
  lemma CreditAfter(c: Config, visitors: Visitors, e: Event, key: string, now: int)
    requires c.interval > 0 && c.burst >= 1 && InCredit(visitors, key) && now <= e.now
    ensures var b, b' := BucketOf(c, visitors, key, now), BucketOf(c, After(c, false, visitors, e), key, e.now);
            && InCredit(After(c, false, visitors, e), key) && 0 <= Available(c, b', e.now)
            && Available(c, b', e.now) <= Available(c, b, now) + (e.now - now)
               - (if Granted(c, visitors, e) && e.key == key then c.interval else 0)
  {
    FullIsEnough(c);
    hide Full;
  }

  lemma OneMore(n: nat, m: nat)
    ensures (1 + n) * m == m + n * m
  {
  }

  /** What is granted is paid from the credit at the start and the time that passes. */
  lemma {:induction false} GrantsArePaid(c: Config, visitors: Visitors, events: seq<Event>, key: string, now: int, end: int)
    requires c.interval > 0 && c.burst >= 1 && InCredit(visitors, key)
    requires Ordered(now, events) && Until(end, events) && now <= end
    ensures Grants(c, false, visitors, events, key) * c.interval <=
            Available(c, BucketOf(c, visitors, key, now), now) + (end - now)
    decreases |events|
  {
    if events == [] {
      FullIsEnough(c);
      hide Full;
    } else {
      var e := events[0];
      var after := After(c, false, visitors, e);
      CreditAfter(c, visitors, e, key, now);
      hide After, Available, BucketOf, Granted, InCredit;
      GrantsArePaid(c, after, events[1..], key, e.now, end);
      OneMore(Grants(c, false, after, events[1..], key), c.interval);
    }
  }

  lemma DividesBy(n: nat, burst: nat, interval: nat, length: nat)
    requires interval > 0 && n * interval <= burst * interval + length
    ensures n <= burst + length / interval
  {
    var q := length / interval;
    QuotientBound(length, interval);
    assert (burst + q + 1) * interval == burst * interval + (q + 1) * interval;
    CancelLess(interval, n, burst + q + 1);
  }

  lemma QuotientBound(x: nat, m: nat)
    requires m > 0
    ensures x < (x / m + 1) * m
  {
  }

  lemma CancelLess(m: nat, a: nat, b: nat)
    requires m > 0 && a * m < b * m
    ensures a < b
  {
  }

  lemma AvailableAtMostFull(c: Config, b: Bucket, now: int)
    ensures Available(c, b, now) <= Full(c)
  {
  }

  lemma {:induction false} RunInCredit(c: Config, visitors: Visitors, events: seq<Event>, key: string, now: int)
    requires c.interval > 0 && c.burst >= 1 && InCredit(visitors, key) && Ordered(now, events)
    ensures InCredit(Run(c, false, visitors, events), key)
    decreases |events|
  {
    if events != [] {
      CreditAfter(c, visitors, events[0], key, now);
      hide After, InCredit, Available;
      RunInCredit(c, After(c, false, visitors, events[0]), events[1..], key, events[0].now);
    }
  }

  /** After any schedule, a key is granted at most the burst and one call an interval in any window. */
  lemma WindowBound(c: Config, begin: int, before: seq<Event>, window: seq<Event>, key: string, start: int, length: nat)
    requires c.interval > 0 && c.burst >= 1 && Full(c) <= TTL + 1
    requires Ordered(begin, before) && LastTime(begin, before) <= start
    requires Ordered(start, window) && Until(start + length, window)
    ensures Grants(c, true, Run(c, true, map[], before), window, key) <= c.burst + length / c.interval
  {
    RunsAlike(c, map[], map[], begin, before);
    RunInCredit(c, map[], before, key, begin);
    hide Kept, Granted, After, Available, InCredit, Permits, BucketOf, Full;
    var evicting, keeping := Run(c, true, map[], before), Run(c, false, map[], before);
    AlikeLater(c, evicting, keeping, LastTime(begin, before), start);
    AnswersAlike(c, evicting, keeping, start, window, key);
    GrantsArePaid(c, keeping, window, key, start, start + length);
    AvailableAtMostFull(c, BucketOf(c, keeping, key, start), start);
    FullIs(c);
    DividesBy(Grants(c, false, keeping, window, key), c.burst, c.interval, length);
  }

  lemma FullIs(c: Config)
    ensures Full(c) == c.burst * c.interval
  {
  }

  lemma AlikeLater(c: Config, evicting: Visitors, keeping: Visitors, now: int, later: int)
    requires Alike(c, evicting, keeping, now) && now <= later
    ensures Alike(c, evicting, keeping, later)
  {
    forall key
      ensures Kept(c, evicting, keeping, later, key)
    {
      assert Kept(c, evicting, keeping, now, key);
    }
  }

  // ----- eviction shows when a burst takes longer to refill -----

  function Calls(key: string, now: int, n: nat): (r: seq<Event>)
    ensures |r| == n && forall i :: 0 <= i < n ==> r[i] == Call(key, now)
  {
    if n == 0 then [] else [Call(key, now)] + Calls(key, now, n - 1)
  }

  lemma CallsTail(key: string, now: int, n: nat)
    requires n > 0
    ensures Calls(key, now, n)[0] == Call(key, now) && Calls(key, now, n)[1..] == Calls(key, now, n - 1)
  {
  }

  /** As many calls at once as the credit pays for are all granted, and use it up. */
  lemma {:induction false} Drain(c: Config, evicts: bool, visitors: Visitors, key: string, now: int, n: nat)
    requires c.interval > 0 && Available(c, BucketOf(c, visitors, key, now), now) >= n * c.interval
    ensures Grants(c, evicts, visitors, Calls(key, now, n), key) == n
    ensures var r := Run(c, evicts, visitors, Calls(key, now, n));
            n > 0 ==> key in r && r[key] == Visitor(Bucket(Available(c, BucketOf(c, visitors, key, now), now) - n * c.interval, now), now)
    decreases n
  {
    if n > 0 {
      var after := After(c, evicts, visitors, Call(key, now));
      CallsTail(key, now, n);
      OneMore(n - 1, c.interval);
      assert (n - 1) * c.interval >= 0;
      DrainOne(c, evicts, visitors, key, now);
      hide After, Available, BucketOf, Granted, Calls;
      Drain(c, evicts, after, key, now, n - 1);
    }
  }

  lemma DrainOne(c: Config, evicts: bool, visitors: Visitors, key: string, now: int)
    requires c.interval > 0 && Available(c, BucketOf(c, visitors, key, now), now) >= c.interval
    ensures var before, after := BucketOf(c, visitors, key, now), After(c, evicts, visitors, Call(key, now));
            && Granted(c, visitors, Call(key, now))
            && key in after && after[key] == Visitor(Bucket(Available(c, before, now) - c.interval, now), now)
            && Available(c, BucketOf(c, after, key, now), now) == Available(c, before, now) - c.interval
  {
    hide Full;
  }

  lemma {:induction false} GrantsSplit(c: Config, evicts: bool, visitors: Visitors, a: seq<Event>, b: seq<Event>, key: string)
    ensures Grants(c, evicts, visitors, a + b, key) ==
            Grants(c, evicts, visitors, a, key) + Grants(c, evicts, Run(c, evicts, visitors, a), b, key)
    ensures Run(c, evicts, visitors, a + b) == Run(c, evicts, Run(c, evicts, visitors, a), b)
    decreases |a|
  {
    hide After, Granted;
    if a == [] {
      assert a + b == b;
    } else {
      assert (a + b)[1..] == a[1..] + b;
      GrantsSplit(c, evicts, After(c, evicts, visitors, a[0]), a[1..], b, key);
    }
  }

  predicate OneKey(events: seq<Event>, key: string) {
    forall i :: 0 <= i < |events| && events[i].Call? ==> events[i].key == key
  }

  lemma {:induction false} SameAnswersSameGrants(c: Config, v: Visitors, w: Visitors, events: seq<Event>, key: string)
    requires OneKey(events, key) && Answers(c, true, v, events) == Answers(c, false, w, events)
    ensures Grants(c, true, v, events, key) == Grants(c, false, w, events, key)
    decreases |events|
  {
    if events != [] {
      var e := events[0];
      var x, y := Answers(c, true, v, events), Answers(c, false, w, events);
      hide After, Granted;
      if e.Call? {
        assert x[0] == Granted(c, v, e) && y[0] == Granted(c, w, e);
        assert x[1..] == Answers(c, true, After(c, true, v, e), events[1..]);
        assert y[1..] == Answers(c, false, After(c, false, w, e), events[1..]);
      } else {
        assert x == Answers(c, true, After(c, true, v, e), events[1..]);
        assert y == Answers(c, false, After(c, false, w, e), events[1..]);
      }
      assert OneKey(events[1..], key);
      NoGrant(c, v, e);
      NoGrant(c, w, e);
      SameAnswersSameGrants(c, After(c, true, v, e), After(c, false, w, e), events[1..], key);
    }
  }

  lemma NoGrant(c: Config, v: Visitors, e: Event)
    ensures Granted(c, v, e) ==> e.Call?
  {
  }

  /** A burst, one clean-up as soon as the key is idle for long enough, and the burst again. */
  function Bursts(c: Config, key: string): seq<Event> {
    Calls(key, 0, c.burst) + ([Sweep(TTL + 1)] + Calls(key, TTL + 1, c.burst))
  }

  lemma {:induction false} CallsOrdered(key: string, start: int, now: int, n: nat)
    requires start <= now
    ensures Ordered(start, Calls(key, now, n))
    decreases n
  {
    if n > 0 {
      CallsTail(key, now, n);
      CallsOrdered(key, now, now, n - 1);
    }
  }

  lemma {:induction false} OrderedSplit(start: int, a: seq<Event>, b: seq<Event>)
    requires Ordered(start, a) && Ordered(LastTime(start, a), b)
    ensures Ordered(start, a + b)
    decreases |a|
  {
    if a == [] {
      assert a + b == b;
    } else {
      assert (a + b)[1..] == a[1..] + b;
      assert LastTime(start, a) == LastTime(a[0].now, a[1..]);
      OrderedSplit(a[0].now, a[1..], b);
    }
  }

  lemma BurstsOrdered(c: Config, key: string)
    requires c.burst >= 1
    ensures Ordered(0, Bursts(c, key)) && OneKey(Bursts(c, key), key)
  {
    var first, last := Calls(key, 0, c.burst), Calls(key, TTL + 1, c.burst);
    CallsOrdered(key, 0, 0, c.burst);
    CallsOrdered(key, TTL + 1, TTL + 1, c.burst);
    hide Calls;
    assert ([Sweep(TTL + 1)] + last)[1..] == last;
    OrderedSplit(0, first, [Sweep(TTL + 1)] + last);
  }

  /** The second burst is granted in full only if the key was forgotten. */
  lemma SecondBurst(c: Config, key: string)
    requires c.burst >= 1 && Full(c) > TTL + 1
    ensures Grants(c, true, map[], Bursts(c, key), key) > Grants(c, false, map[], Bursts(c, key), key)
  {
    var first, sweep, last := Calls(key, 0, c.burst), [Sweep(TTL + 1)], Calls(key, TTL + 1, c.burst);
    var forgets, keeps := Run(c, true, map[], first), Run(c, false, map[], first);
    IntervalIsPositive(c);
    AvailableOfNew(c, 0);
    AvailableOfNew(c, TTL + 1);
    FullIs(c);
    hide Full, Calls, Available;
    Drain(c, true, map[], key, 0, c.burst);
    Drain(c, false, map[], key, 0, c.burst);
    assert keeps[key] == Visitor(Bucket(0, 0), 0) == forgets[key];
    GrantsSplit(c, true, map[], first, sweep + last, key);
    GrantsSplit(c, false, map[], first, sweep + last, key);
    SweepThen(c, true, forgets, last, key);
    SweepThen(c, false, keeps, last, key);
    Drain(c, true, Evicted(forgets, TTL + 1), key, TTL + 1, c.burst);
    CallsOrdered(key, TTL + 1, TTL + 1, c.burst);
    GrantsArePaid(c, keeps, last, key, TTL + 1, TTL + 1);
    AvailableOfEmpty(c);
    TooFew(Grants(c, false, keeps, last, key), c.burst, c.interval, TTL + 1);
  }

  lemma IntervalIsPositive(c: Config)
    requires Full(c) > 0
    ensures c.interval > 0
  {
  }

  lemma AvailableOfNew(c: Config, now: int)
    ensures Available(c, Bucket(Full(c), now), now) == Full(c)
  {
  }

  lemma AvailableOfEmpty(c: Config)
    ensures Available(c, Bucket(0, 0), TTL + 1) <= TTL + 1
  {
  }

  lemma PositiveFactor(m: nat, n: nat)
    requires n * m > 0
    ensures m > 0
  {
  }

  lemma TooFew(n: nat, burst: nat, interval: nat, time: nat)
    requires n * interval <= time < burst * interval
    ensures n < burst
  {
    PositiveFactor(interval, burst);
    CancelLess(interval, n, burst);
  }

  lemma SweepThen(c: Config, evicts: bool, visitors: Visitors, events: seq<Event>, key: string)
    ensures var after := if evicts then Evicted(visitors, TTL + 1) else visitors;
            Grants(c, evicts, visitors, [Sweep(TTL + 1)] + events, key) == Grants(c, evicts, after, events, key)
  {
    assert ([Sweep(TTL + 1)] + events)[1..] == events;
  }

  /** Whatever the schedule, forgetting idle keys changes no answer: if and only if a burst refills within the TTL. */
  lemma EvictionIsInvisible(c: Config)
    requires c.burst >= 1
    ensures (forall start, events :: Ordered(start, events) ==>
               Answers(c, true, map[], events) == Answers(c, false, map[], events))
            <==> c.burst * c.interval <= 600_000_000_001
  {
    if Full(c) <= TTL + 1 {
      forall start, events | Ordered(start, events)
        ensures Answers(c, true, map[], events) == Answers(c, false, map[], events)
      {
        AnswersAlike(c, map[], map[], start, events, "");
      }
    } else {
      BurstsOrdered(c, "");
      SecondBurst(c, "");
      if Answers(c, true, map[], Bursts(c, "")) == Answers(c, false, map[], Bursts(c, "")) {
        SameAnswersSameGrants(c, map[], map[], Bursts(c, ""), "");
      }
    }
  }

  /** The limits that New accepts as they are: ten minutes of calls cover the burst. */
  lemma TenMinutesCoverBurst(perMinute: int, burst: int)
    requires 1 <= burst <= 10 * perMinute
    ensures burst * (60_000_000_000 / perMinute) <= 600_000_000_000
  {
    assert MINUTE / perMinute * perMinute <= MINUTE;
    assert burst * (MINUTE / perMinute) <= 10 * perMinute * (MINUTE / perMinute);
  }
}
