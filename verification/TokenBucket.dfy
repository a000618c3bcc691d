/** Token buckets over real time, and the per-key buckets with eviction of idle entries. */
module TokenBuckets {

  /** burst: most tokens a bucket holds; rate: tokens per second. */
  datatype Limit = Limit(burst: int, rate: int)

  datatype Bucket = Bucket(tokens: real, last: real)

  function Gain(l: Limit, from: real, to: real): real {
    (to - from) * (l.rate as real)
  }

  lemma GainSplits(l: Limit, a: real, b: real, c: real)
    ensures Gain(l, a, b) + Gain(l, b, c) == Gain(l, a, c)
  {
    var r := l.rate as real;
    assert (b - a) * r + (c - b) * r == ((b - a) + (c - b)) * r;
  }

  lemma GainGrows(l: Limit, a: real, b: real)
    requires a <= b && l.rate >= 0
    ensures Gain(l, a, b) >= 0.0
  {}

  function Full(l: Limit, now: real): Bucket {
    Bucket(l.burst as real, now)
  }

  function Refill(l: Limit, b: Bucket, now: real): Bucket {
    var t := b.tokens + Gain(l, b.last, now);
    Bucket(if t > l.burst as real then l.burst as real else t, now)
  }

  function Allow(l: Limit, b: Bucket, now: real): (Bucket, bool) {
    var r := Refill(l, b, now);
    if r.tokens >= 1.0 then (r.(tokens := r.tokens - 1.0), true) else (r, false)
  }

  datatype Entry = Entry(bucket: Bucket, lastAccess: real, requests: nat, rejected: nat)

  type Entries = map<string, Entry>

  function EntryFor(l: Limit, entries: Entries, key: string, now: real): Entry {
    if key in entries then entries[key] else Entry(Full(l, now), now, 0, 0)
  }

  /** One request for the key: checkIPLimit and checkCallLimit. */
  function Check(l: Limit, entries: Entries, key: string, now: real): (Entries, bool) {
    var e := EntryFor(l, entries, key, now);
    var (b, ok) := Allow(l, e.bucket, now);
    (entries[key := Entry(b, now, e.requests + 1, e.rejected + if ok then 0 else 1)], ok)
  }

  function Evict(ttl: real, entries: Entries, now: real): Entries {
    map k | k in entries && now - entries[k].lastAccess <= ttl :: entries[k]
  }

  /** At most full, and not below zero unless a full bucket is. */
  ghost predicate BucketOk(l: Limit, b: Bucket, clock: real) {
    b.last <= clock && b.tokens <= l.burst as real && (b.tokens >= 0.0 || b.tokens == l.burst as real)
  }

  ghost predicate Ok(l: Limit, entries: Entries, clock: real) {
    forall k <- entries :: entries[k].lastAccess == entries[k].bucket.last && BucketOk(l, entries[k].bucket, clock)
  }

  /** The tokens the key would have at this time. */
  ghost function Level(l: Limit, entries: Entries, key: string, now: real): real {
    if key in entries then Refill(l, entries[key].bucket, now).tokens else l.burst as real
  }

  lemma LevelGrows(l: Limit, entries: Entries, key: string, a: real, b: real)
    requires a <= b && l.rate >= 0
    ensures Level(l, entries, key, a) <= Level(l, entries, key, b) <= Level(l, entries, key, a) + Gain(l, a, b)
    ensures Level(l, entries, key, b) <= l.burst as real
  {
    hide Gain;
    GainGrows(l, a, b);
    if key in entries {
      GainSplits(l, entries[key].bucket.last, a, b);
    }
  }

  lemma NoGain(l: Limit, a: real)
    ensures Gain(l, a, a) == 0.0
  {}

  lemma AllowKeeps(l: Limit, b: Bucket, now: real)
    requires BucketOk(l, b, now) && l.rate >= 0
    ensures BucketOk(l, Allow(l, b, now).0, now)
    ensures Refill(l, Allow(l, b, now).0, now) == Allow(l, b, now).0
  {
    hide Gain;
    GainGrows(l, b.last, now);
    NoGain(l, now);
  }

  /** A request leaves the other keys alone and takes one token from its own key exactly when it is let
      through, which it is exactly when a token is there. */
  lemma CheckTakesOne(l: Limit, entries: Entries, key: string, now: real, other: string)
    requires Ok(l, entries, now) && l.rate >= 0
    ensures Ok(l, Check(l, entries, key, now).0, now)
    ensures Check(l, entries, key, now).1 <==> Level(l, entries, key, now) >= 1.0
    ensures Level(l, Check(l, entries, key, now).0, other, now) ==
              Level(l, entries, other, now) - if other == key && Check(l, entries, key, now).1 then 1.0 else 0.0
  {
    hide Gain;
    NoGain(l, now);
    AllowKeeps(l, EntryFor(l, entries, key, now).bucket, now);
  }

  /** A bucket refills completely within the time-to-live. */
  predicate RefillsWithin(l: Limit, ttl: real) {
    ttl * (l.rate as real) >= l.burst as real
  }

  lemma IdleIsFull(l: Limit, ttl: real, b: Bucket, now: real)
    requires BucketOk(l, b, now) && l.rate >= 0 && RefillsWithin(l, ttl) && now - b.last > ttl
    ensures Refill(l, b, now).tokens == l.burst as real
  {
    GainGrows(l, b.last, now);
    assert Gain(l, b.last, now) >= ttl * (l.rate as real) by {
      var r := l.rate as real;
      assert (now - b.last - ttl) * r >= 0.0;
      assert (now - b.last) * r == (now - b.last - ttl) * r + ttl * r;
    }
  }

  /** Evicting keeps the entries sound, and changes no level if buckets refill within the time-to-live. */
  lemma EvictLevel(l: Limit, ttl: real, entries: Entries, now: real, key: string)
    requires Ok(l, entries, now) && l.rate >= 0
    ensures Ok(l, Evict(ttl, entries, now), now)
    ensures RefillsWithin(l, ttl) ==> Level(l, Evict(ttl, entries, now), key, now) == Level(l, entries, key, now)
  {
    hide RefillsWithin, Gain;
    if RefillsWithin(l, ttl) && key in entries && now - entries[key].lastAccess > ttl {
      IdleIsFull(l, ttl, entries[key].bucket, now);
    }
  }

  // ---- Eviction is invisible exactly when buckets refill within the time-to-live

  datatype Event = CheckEvent(key: string, now: real) | EvictEvent(now: real)

  ghost predicate Ordered(es: seq<Event>) {
    forall i, j :: 0 <= i < j < |es| ==> es[i].now <= es[j].now
  }

  function Apply(l: Limit, ttl: real, evicting: bool, entries: Entries, e: Event): Entries {
    match e
    case CheckEvent(key, now) => Check(l, entries, key, now).0
    case EvictEvent(now) => if evicting then Evict(ttl, entries, now) else entries
  }

  function Run(l: Limit, ttl: real, evicting: bool, es: seq<Event>): Entries {
    if es == [] then map[] else Apply(l, ttl, evicting, Run(l, ttl, evicting, es[..|es| - 1]), es[|es| - 1])
  }

  /** What is answered to a request for the key after this run. */
  predicate Answer(l: Limit, ttl: real, evicting: bool, es: seq<Event>, key: string, now: real) {
    Check(l, Run(l, ttl, evicting, es), key, now).1
  }

  /** Both limiters are sound and give every key the same level from now on. */
  ghost predicate SameLevels(l: Limit, a: Entries, b: Entries, clock: real) {
    Ok(l, a, clock) && Ok(l, b, clock) && forall key :: Level(l, a, key, clock) == Level(l, b, key, clock)
  }

  /** A level at one time decides the level at every later time. */
  lemma LevelDecides(l: Limit, entries: Entries, key: string, a: real, b: real)
    requires a <= b && l.rate >= 0
    ensures Level(l, entries, key, b) ==
              var t := Level(l, entries, key, a) + Gain(l, a, b); if t > l.burst as real then l.burst as real else t
  {
    hide Gain;
    GainGrows(l, a, b);
    if key in entries {
      GainSplits(l, entries[key].bucket.last, a, b);
    }
  }

  lemma OkLater(l: Limit, entries: Entries, a: real, b: real)
    requires Ok(l, entries, a) && a <= b
    ensures Ok(l, entries, b)
  {}

  lemma SameStep(l: Limit, ttl: real, a: Entries, b: Entries, clock: real, e: Event)
    requires SameLevels(l, a, b, clock) && clock <= e.now && l.rate >= 0 && RefillsWithin(l, ttl)
    ensures SameLevels(l, Apply(l, ttl, true, a, e), Apply(l, ttl, false, b, e), e.now)
  {
    hide Level, Ok, Check, Evict, RefillsWithin, Gain;
    OkLater(l, a, clock, e.now);
    OkLater(l, b, clock, e.now);
    forall key ensures Level(l, a, key, e.now) == Level(l, b, key, e.now) {
      LevelDecides(l, a, key, clock, e.now);
      LevelDecides(l, b, key, clock, e.now);
    }
    var a', b' := Apply(l, ttl, true, a, e), Apply(l, ttl, false, b, e);
    forall key ensures Level(l, a', key, e.now) == Level(l, b', key, e.now) {
      StepLevels(l, ttl, a, b, e, key);
    }
    StepLevels(l, ttl, a, b, e, "");
  }

  lemma StepLevels(l: Limit, ttl: real, a: Entries, b: Entries, e: Event, key: string)
    requires SameLevels(l, a, b, e.now) && l.rate >= 0 && RefillsWithin(l, ttl)
    ensures var a', b' := Apply(l, ttl, true, a, e), Apply(l, ttl, false, b, e);
            Ok(l, a', e.now) && Ok(l, b', e.now) && Level(l, a', key, e.now) == Level(l, b', key, e.now)
  {
    hide Level, Ok, Check, Evict, RefillsWithin, Gain;
    match e
    case CheckEvent(k, now) =>
      CheckTakesOne(l, a, k, now, key);
      CheckTakesOne(l, b, k, now, key);
    case EvictEvent(now) => EvictLevel(l, ttl, a, now, key);
  }

  lemma {:induction false} SameRuns(l: Limit, ttl: real, es: seq<Event>)
    requires Ordered(es) && l.rate >= 0 && RefillsWithin(l, ttl) && es != []
    ensures SameLevels(l, Run(l, ttl, true, es), Run(l, ttl, false, es), es[|es| - 1].now)
  {
    hide RefillsWithin, Apply, SameLevels;
    var k := |es| - 1;
    if k == 0 {
      assert es[..0] == [];
      StartsSame(l, es[0].now);
      SameStep(l, ttl, map[], map[], es[0].now, es[0]);
    } else {
      SameRuns(l, ttl, es[..k]);
      SameStep(l, ttl, Run(l, ttl, true, es[..k]), Run(l, ttl, false, es[..k]), es[k - 1].now, es[k]);
    }
  }

  lemma StartsSame(l: Limit, clock: real)
    ensures SameLevels(l, map[], map[], clock)
  {}

  lemma InvisibleIfRefills(l: Limit, ttl: real, es: seq<Event>, key: string, now: real)
    requires Ordered(es + [CheckEvent(key, now)]) && l.rate >= 0 && RefillsWithin(l, ttl)
    ensures Answer(l, ttl, true, es, key, now) <==> Answer(l, ttl, false, es, key, now)
  {
    hide RefillsWithin, Check, Level, Gain, Ok;
    var a, b := Run(l, ttl, true, es), Run(l, ttl, false, es);
    assert SameLevels(l, a, b, now) by {
      if es == [] {
        StartsSame(l, now);
      } else {
        var all, k := es + [CheckEvent(key, now)], |es| - 1;
        assert all[k] == es[k] && all[k + 1].now == now;
        assert Ordered(es) by {
          assert forall i :: 0 <= i < |es| ==> all[i] == es[i];
        }
        SameRuns(l, ttl, es);
        OkLater(l, a, es[k].now, now);
        OkLater(l, b, es[k].now, now);
        forall q ensures Level(l, a, q, now) == Level(l, b, q, now) {
          LevelDecides(l, a, q, es[k].now, now);
          LevelDecides(l, b, q, es[k].now, now);
        }
      }
    }
    CheckTakesOne(l, a, key, now, key);
    CheckTakesOne(l, b, key, now, key);
  }

  // ---- Otherwise there is a run that shows the eviction

  /** n requests for the key at the same time. */
  function Requests(key: string, now: real, n: nat): seq<Event> {
    if n == 0 then [] else Requests(key, now, n - 1) + [CheckEvent(key, now)]
  }

  lemma {:induction false} RequestsAre(key: string, now: real, n: nat)
    ensures |Requests(key, now, n)| == n
    ensures forall i :: 0 <= i < n ==> Requests(key, now, n)[i] == CheckEvent(key, now)
  {
    if n == 0 {
    } else {
      RequestsAre(key, now, n - 1);
    }
  }

  /** While there are tokens, requests at one time take one each. */
  lemma {:induction false} Drains(l: Limit, ttl: real, evicting: bool, es: seq<Event>, key: string, now: real, n: nat)
    requires l.rate >= 0 && Ok(l, Run(l, ttl, evicting, es), now)
    requires Level(l, Run(l, ttl, evicting, es), key, now) >= n as real
    ensures var st := Run(l, ttl, evicting, es + Requests(key, now, n));
            && Ok(l, st, now)
            && Level(l, st, key, now) == Level(l, Run(l, ttl, evicting, es), key, now) - n as real
            && (n > 0 ==> key in st && st[key].lastAccess == now)
  {
    hide Ok, Level;
    if n == 0 {
      assert es + [] == es;
    } else {
      Drains(l, ttl, evicting, es, key, now, n - 1);
      var less, all := es + Requests(key, now, n - 1), es + Requests(key, now, n);
      assert all == less + [CheckEvent(key, now)] && all[..|all| - 1] == less;
      CheckTakesOne(l, Run(l, ttl, evicting, less), key, now, key);
    }
  }

  /** A time after which the entry is evicted though its bucket is not full. */
  function ShowingTime(l: Limit, ttl: real): real
    requires l.rate > 0
  {
    (ttl + l.burst as real / l.rate as real) / 2.0
  }

  lemma ShowingTimeIsLate(l: Limit, ttl: real)
    requires l.rate > 0 && !RefillsWithin(l, ttl)
    ensures ttl < ShowingTime(l, ttl) && ShowingTime(l, ttl) * (l.rate as real) < l.burst as real
  {
    var r, b := l.rate as real, l.burst as real;
    var q := b / r;
    assert q * r == b;
    if ttl >= q {
      TimesGrows(q, ttl, r);
    }
    var t := ShowingTime(l, ttl);
    assert t < q;
    assert (q - t) * r > 0.0;
    assert t * r == q * r - (q - t) * r;
  }

  lemma TimesGrows(x: real, y: real, r: real)
    requires x <= y && r >= 0.0
    ensures x * r <= y * r
  {
    assert (y - x) * r >= 0.0;
    assert y * r == x * r + (y - x) * r;
  }

  /** The tokens that come back by time t. */
  function Back(l: Limit, t: real): real {
    t * (l.rate as real)
  }

  /** Spend the burst, wait, clean up, then ask for as many as have come back. */
  function ShowingRun(l: Limit, t: real, n: nat): seq<Event>
    requires l.burst >= 0
  {
    Requests("k", 0.0, l.burst) + [EvictEvent(t)] + Requests("k", t, n)
  }

  lemma AfterEviction(l: Limit, ttl: real, evicting: bool, t: real)
    requires l.rate > 0 && l.burst >= 1 && t > ttl >= 0.0 && Back(l, t) < l.burst as real
    ensures var st := Run(l, ttl, evicting, Requests("k", 0.0, l.burst) + [EvictEvent(t)]);
            Ok(l, st, t) && Level(l, st, "k", t) == if evicting then l.burst as real else Back(l, t)
  {
    hide Ok, Check, Refill;
    var es := Requests("k", 0.0, l.burst);
    assert [] + es == es;
    assert Ok(l, map[], 0.0) by { StartsSame(l, 0.0); }
    Drains(l, ttl, evicting, [], "k", 0.0, l.burst);
    var st := Run(l, ttl, evicting, es);
    var all := es + [EvictEvent(t)];
    assert all[..|all| - 1] == es;
    OkLater(l, st, 0.0, t);
    EvictLevel(l, ttl, st, t, "k");
    LevelDecides(l, st, "k", 0.0, t);
    assert Gain(l, 0.0, t) == Back(l, t);
  }

  lemma ShowingAnswer(l: Limit, ttl: real, evicting: bool, t: real, n: nat)
    requires l.rate > 0 && l.burst >= 1 && t > ttl >= 0.0 && n as real <= Back(l, t) < l.burst as real
    requires Back(l, t) < n as real + 1.0
    ensures Answer(l, ttl, evicting, ShowingRun(l, t, n), "k", t) <==> evicting
  {
    hide Ok, Level, Run, Check, Back;
    var es := Requests("k", 0.0, l.burst) + [EvictEvent(t)];
    AfterEviction(l, ttl, evicting, t);
    Drains(l, ttl, evicting, es, "k", t, n);
    CheckTakesOne(l, Run(l, ttl, evicting, ShowingRun(l, t, n)), "k", t, "k");
    assert n < l.burst;
  }

  lemma ShowingOrdered(l: Limit, t: real, n: nat)
    requires l.burst >= 0 && t >= 0.0
    ensures Ordered(ShowingRun(l, t, n) + [CheckEvent("k", t)])
  {
    RequestsAre("k", 0.0, l.burst);
    RequestsAre("k", t, n);
  }

  lemma VisibleOtherwise(l: Limit, ttl: real) returns (t: real, n: nat)
    requires l.rate > 0 && ttl >= 0.0 && !RefillsWithin(l, ttl)
    ensures l.burst >= 1
    ensures var es := ShowingRun(l, t, n);
            Ordered(es + [CheckEvent("k", t)]) && Answer(l, ttl, true, es, "k", t) && !Answer(l, ttl, false, es, "k", t)
  {
    hide Ordered, Answer, ShowingRun;
    ShowingTimeIsLate(l, ttl);
    TimesGrows(0.0, ttl, l.rate as real);
    t := ShowingTime(l, ttl);
    hide ShowingTime;
    TimesGrows(0.0, t, l.rate as real);
    n := Back(l, t).Floor;
    ShowingAnswer(l, ttl, true, t, n);
    ShowingAnswer(l, ttl, false, t, n);
    ShowingOrdered(l, t, n);
  }

  /** No answer, after any run, tells whether idle entries were evicted, if and only if a bucket refills
      completely within the time-to-live. */
  lemma EvictionInvisibleIff(l: Limit, ttl: real)
    requires l.rate > 0 && ttl >= 0.0
    ensures (forall es, key, now :: Ordered(es + [CheckEvent(key, now)]) ==>
               (Answer(l, ttl, true, es, key, now) <==> Answer(l, ttl, false, es, key, now))) <==>
            RefillsWithin(l, ttl)
  {
    hide Ordered, Answer, RefillsWithin, ShowingRun;
    if RefillsWithin(l, ttl) {
      forall es, key, now | Ordered(es + [CheckEvent(key, now)])
        ensures Answer(l, ttl, true, es, key, now) <==> Answer(l, ttl, false, es, key, now)
      {
        InvisibleIfRefills(l, ttl, es, key, now);
      }
    } else {
      var t, n := VisibleOtherwise(l, ttl);
    }
  }
}
