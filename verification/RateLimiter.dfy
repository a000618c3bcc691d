/** The rate limiter: blocked addresses, then the global, the per-address and the per-call bucket. */
module RateLimiting {
  import opened TokenBuckets

  /** A limit whose rate is not positive is off. */
  datatype Config = Config(global: Limit, ip: Limit, call: Limit, ttl: real, blockDuration: real)

  datatype Verdict = Allowed | RejectedBlocked | RejectedGlobal | RejectedPerIP | RejectedPerCall

  datatype Stats = Stats(total: nat, verdicts: map<Verdict, nat>, activeIPs: int, activeCalls: int, blockedIPs: int)

  datatype State = State(global: Bucket, ips: Entries, calls: Entries, blocked: map<string, real>, stats: Stats)

  function New(c: Config, now: real): State {
    State(Full(c.global, now), map[], map[], map[], Stats(0, map[], 0, 0, 0))
  }

  function Tally(verdicts: map<Verdict, nat>, v: Verdict): nat {
    if v in verdicts then verdicts[v] else 0
  }

  function Counted(st: State, v: Verdict): State {
    st.(stats := st.stats.(total := st.stats.total + 1,
                           verdicts := st.stats.verdicts[v := Tally(st.stats.verdicts, v) + 1]))
  }

  predicate Blocked(c: Config, st: State, ip: string, now: real) {
    ip in st.blocked && now - st.blocked[ip] <= c.blockDuration
  }

  /** isBlocked forgets a block that has run out. */
  function LiftBlock(c: Config, st: State, ip: string, now: real): State {
    if ip in st.blocked && now - st.blocked[ip] > c.blockDuration then Unblock(st, ip) else st
  }

  function Unblock(st: State, ip: string): State {
    if ip !in st.blocked then st
    else st.(blocked := st.blocked - {ip}, stats := st.stats.(blockedIPs := st.stats.blockedIPs - 1))
  }

  function Block(st: State, ip: string, now: real): State {
    st.(blocked := st.blocked[ip := now],
        stats := st.stats.(blockedIPs := st.stats.blockedIPs + if ip in st.blocked then 0 else 1))
  }

  /** Counts the block even for an address that is blocked already. */
  function MaybeBlock(st: State, ip: string, now: real): State {
    if ip in st.ips && st.ips[ip].requests > 10 && 2 * st.ips[ip].rejected > st.ips[ip].requests then
      st.(blocked := st.blocked[ip := now], stats := st.stats.(blockedIPs := st.stats.blockedIPs + 1))
    else st
  }

  function PassGlobal(c: Config, st: State, now: real): (State, bool) {
    if c.global.rate <= 0 then (st, true)
    else
      var (b, ok) := TokenBuckets.Allow(c.global, st.global, now);
      (st.(global := b), ok)
  }

  function PassIp(c: Config, st: State, ip: string, now: real): (State, bool) {
    if c.ip.rate <= 0 then (st, true)
    else
      var (ips, ok) := Check(c.ip, st.ips, ip, now);
      var added := if ip in st.ips then 0 else 1;
      (st.(ips := ips, stats := st.stats.(activeIPs := st.stats.activeIPs + added)), ok)
  }

  function PassCall(c: Config, st: State, call: string, now: real): (State, bool) {
    if c.call.rate <= 0 || call == "" then (st, true)
    else
      var (calls, ok) := Check(c.call, st.calls, call, now);
      var added := if call in st.calls then 0 else 1;
      (st.(calls := calls, stats := st.stats.(activeCalls := st.stats.activeCalls + added)), ok)
  }

  function Decide(c: Config, st: State, ip: string, call: string, now: real): (State, Verdict) {
    if Blocked(c, st, ip, now) then (st, RejectedBlocked)
    else
      var (st1, global) := PassGlobal(c, LiftBlock(c, st, ip, now), now);
      if !global then (st1, RejectedGlobal)
      else
        var (st2, address) := PassIp(c, st1, ip, now);
        if !address then (MaybeBlock(st2, ip, now), RejectedPerIP)
        else
          var (st3, perCall) := PassCall(c, st2, call, now);
          (st3, if perCall then Allowed else RejectedPerCall)
  }

  function Allow(c: Config, st: State, ip: string, call: string, now: real): (State, bool) {
    var (st', v) := Decide(c, st, ip, call, now);
    (Counted(st', v), v == Allowed)
  }

  function LiveBlocks(c: Config, blocked: map<string, real>, now: real): map<string, real> {
    map ip | ip in blocked && now - blocked[ip] <= c.blockDuration :: blocked[ip]
  }

  function Cleanup(c: Config, st: State, now: real): State {
    var ips, calls := Evict(c.ttl, st.ips, now), Evict(c.ttl, st.calls, now);
    var blocked := LiveBlocks(c, st.blocked, now);
    State(st.global, ips, calls, blocked,
          st.stats.(activeIPs := st.stats.activeIPs - (|st.ips| - |ips|),
                    activeCalls := st.stats.activeCalls - (|st.calls| - |calls|),
                    blockedIPs := st.stats.blockedIPs - (|st.blocked| - |blocked|)))
  }

  datatype Event =
    | AllowEvent(ip: string, call: string, now: real)
    | BlockEvent(ip: string, now: real)
    | UnblockEvent(ip: string, now: real)
    | CleanupEvent(now: real)

  function Apply(c: Config, st: State, e: Event): State {
    match e
    case AllowEvent(ip, call, now) => Allow(c, st, ip, call, now).0
    case BlockEvent(ip, now) => Block(st, ip, now)
    case UnblockEvent(ip, now) => Unblock(st, ip)
    case CleanupEvent(now) => Cleanup(c, st, now)
  }

  function Run(c: Config, st: State, es: seq<Event>): State {
    if es == [] then st else Apply(c, Run(c, st, es[..|es| - 1]), es[|es| - 1])
  }

  // ---- The counters

  function Sum(t: map<Verdict, nat>): nat {
    Tally(t, Allowed) + Tally(t, RejectedBlocked) + Tally(t, RejectedGlobal) + Tally(t, RejectedPerIP) +
      Tally(t, RejectedPerCall)
  }

  /** Every request has one verdict, and the gauges are the sizes of the maps. */
  ghost predicate Balanced(st: State) {
    && st.stats.total == Sum(st.stats.verdicts)
    && st.stats.activeIPs == |st.ips|
    && st.stats.activeCalls == |st.calls|
    && st.stats.blockedIPs == |st.blocked|
  }

  lemma CheckGrows(l: Limit, entries: Entries, key: string, now: real)
    ensures |Check(l, entries, key, now).0| == |entries| + if key in entries then 0 else 1
  {}

  lemma PassesKeepBalance(c: Config, st: State, ip: string, call: string, now: real)
    requires Balanced(st)
    ensures Balanced(PassGlobal(c, st, now).0) && PassGlobal(c, st, now).0.blocked == st.blocked
    ensures Balanced(PassIp(c, st, ip, now).0) && PassIp(c, st, ip, now).0.blocked == st.blocked
    ensures Balanced(PassCall(c, st, call, now).0)
  {
    hide Check, TokenBuckets.Allow, Sum;
    CheckGrows(c.ip, st.ips, ip, now);
    CheckGrows(c.call, st.calls, call, now);
  }

  lemma BlocksKeepBalance(c: Config, st: State, ip: string, now: real)
    requires Balanced(st)
    ensures Balanced(Unblock(st, ip)) && Balanced(Block(st, ip, now)) && Balanced(LiftBlock(c, st, ip, now))
    ensures ip !in st.blocked ==> Balanced(MaybeBlock(st, ip, now))
    ensures !Blocked(c, st, ip, now) ==> ip !in LiftBlock(c, st, ip, now).blocked
  {
    hide Sum;
    if ip in st.blocked {
      assert (st.blocked - {ip})[ip := st.blocked[ip]] == st.blocked;
    }
  }

  lemma CountedKeepsBalance(st: State, v: Verdict)
    requires Balanced(st)
    ensures Balanced(Counted(st, v))
  {}

  lemma CleanupKeepsBalance(c: Config, st: State, now: real)
    requires Balanced(st)
    ensures Balanced(Cleanup(c, st, now))
  {
    hide Sum, Evict;
  }

  /** The gauge of blocked addresses stays exact although MaybeBlock counts unconditionally: Allow only
      reaches it for an address that is not blocked. */
  lemma AllowKeepsBalance(c: Config, st: State, ip: string, call: string, now: real)
    requires Balanced(st)
    ensures Balanced(Allow(c, st, ip, call, now).0)
  {
    hide Balanced, PassGlobal, PassIp, PassCall, MaybeBlock, Counted, LiftBlock, Blocked;
    var st0 := LiftBlock(c, st, ip, now);
    BlocksKeepBalance(c, st, ip, now);
    PassesKeepBalance(c, st0, ip, call, now);
    var st1 := PassGlobal(c, st0, now).0;
    PassesKeepBalance(c, st1, ip, call, now);
    var st2 := PassIp(c, st1, ip, now).0;
    PassesKeepBalance(c, st2, ip, call, now);
    BlocksKeepBalance(c, st2, ip, now);
    var (st', v) := Decide(c, st, ip, call, now);
    CountedKeepsBalance(st', v);
  }

  lemma StepKeepsBalance(c: Config, st: State, e: Event)
    requires Balanced(st)
    ensures Balanced(Apply(c, st, e))
  {
    hide Balanced, Allow, Block, Unblock, Cleanup;
    match e
    case AllowEvent(ip, call, now) => AllowKeepsBalance(c, st, ip, call, now);
    case BlockEvent(ip, now) => BlocksKeepBalance(c, st, ip, now);
    case UnblockEvent(ip, now) => BlocksKeepBalance(c, st, ip, now);
    case CleanupEvent(now) => CleanupKeepsBalance(c, st, now);
  }

  /** In every run every request is counted under exactly one verdict and the gauges are exact. */
  lemma {:induction false} RunKeepsBalance(c: Config, start: real, es: seq<Event>)
    ensures Balanced(Run(c, New(c, start), es))
  {
    hide Apply;
    if es == [] {
    } else {
      RunKeepsBalance(c, start, es[..|es| - 1]);
      StepKeepsBalance(c, Run(c, New(c, start), es[..|es| - 1]), es[|es| - 1]);
    }
  }

  // ---- How much is let through

  /** All requests, those of an address, or those of a call. */
  datatype Who = Everyone | Address(ip: string) | Call(call: string)

  function LimitOf(c: Config, who: Who): Limit {
    match who case Everyone => c.global case Address(_) => c.ip case Call(_) => c.call
  }

  predicate Concerns(who: Who, e: Event) {
    e.AllowEvent? && match who case Everyone => true case Address(ip) => e.ip == ip case Call(call) => e.call == call
  }

  ghost function LevelOf(c: Config, st: State, who: Who, now: real): real {
    match who
    case Everyone => Refill(c.global, st.global, now).tokens
    case Address(ip) => Level(c.ip, st.ips, ip, now)
    case Call(call) => Level(c.call, st.calls, call, now)
  }

  ghost predicate Sound(c: Config, st: State, clock: real) {
    && (c.global.rate > 0 ==> BucketOk(c.global, st.global, clock))
    && (c.ip.rate > 0 ==> Ok(c.ip, st.ips, clock))
    && (c.call.rate > 0 ==> Ok(c.call, st.calls, clock))
  }

  predicate LetsThrough(c: Config, st: State, e: Event) {
    e.AllowEvent? && Allow(c, st, e.ip, e.call, e.now).1
  }

  /** The limit is on, and the evictions of idle entries cannot refill its bucket early. */
  predicate Enforced(c: Config, who: Who) {
    && LimitOf(c, who).rate > 0
    && (who.Everyone? || RefillsWithin(LimitOf(c, who), c.ttl))
    && (who.Call? ==> who.call != "")
  }

  /** A request reaches each bucket at most once, and every bucket if it is let through. */
  lemma DecideParts(c: Config, st: State, ip: string, call: string, now: real)
    ensures var (st', v) := Decide(c, st, ip, call, now); var (b, ok) := TokenBuckets.Allow(c.global, st.global, now);
            (st'.global == st.global && (v == Allowed ==> c.global.rate <= 0)) ||
            (c.global.rate > 0 && st'.global == b && (v == Allowed ==> ok))
    ensures var (st', v) := Decide(c, st, ip, call, now); var (ips, ok) := Check(c.ip, st.ips, ip, now);
            (st'.ips == st.ips && (v == Allowed ==> c.ip.rate <= 0)) ||
            (c.ip.rate > 0 && st'.ips == ips && (v == Allowed ==> ok))
    ensures var (st', v) := Decide(c, st, ip, call, now); var (calls, ok) := Check(c.call, st.calls, call, now);
            (st'.calls == st.calls && (v == Allowed ==> c.call.rate <= 0 || call == "")) ||
            (c.call.rate > 0 && st'.calls == calls && (v == Allowed ==> ok))
  {
    hide TokenBuckets.Allow, Check, LiftBlock, MaybeBlock, Blocked;
    BlockingLeaves(c, st, ip, now);
    var st2 := PassIp(c, PassGlobal(c, LiftBlock(c, st, ip, now), now).0, ip, now).0;
    BlockingLeaves(c, st2, ip, now);
  }

  lemma BlockingLeaves(c: Config, st: State, ip: string, now: real)
    ensures var a, b := LiftBlock(c, st, ip, now), MaybeBlock(st, ip, now);
            a.global == b.global == st.global && a.ips == b.ips == st.ips && a.calls == b.calls == st.calls
  {}

  lemma GlobalStep(c: Config, st: State, e: Event)
    requires e.AllowEvent? && c.global.rate > 0 && BucketOk(c.global, st.global, e.now)
    ensures var st' := Apply(c, st, e);
            var was, left := LevelOf(c, st, Everyone, e.now), LevelOf(c, st', Everyone, e.now);
            && BucketOk(c.global, st'.global, e.now)
            && left + (if LetsThrough(c, st, e) then 1.0 else 0.0) <= was
            && (LetsThrough(c, st, e) || was >= 0.0 ==> left >= 0.0)
  {
    hide Decide, Gain;
    DecideParts(c, st, e.ip, e.call, e.now);
    AllowKeeps(c.global, st.global, e.now);
    GainGrows(c.global, st.global.last, e.now);
  }

  lemma AddressStep(c: Config, st: State, e: Event, ip: string)
    requires e.AllowEvent? && c.ip.rate > 0 && Ok(c.ip, st.ips, e.now)
    ensures var st' := Apply(c, st, e);
            var was, left := LevelOf(c, st, Address(ip), e.now), LevelOf(c, st', Address(ip), e.now);
            && Ok(c.ip, st'.ips, e.now)
            && left + (if LetsThrough(c, st, e) && e.ip == ip then 1.0 else 0.0) <= was
            && ((LetsThrough(c, st, e) && e.ip == ip) || was >= 0.0 ==> left >= 0.0)
  {
    hide Decide, Level, Check, Ok;
    DecideParts(c, st, e.ip, e.call, e.now);
    CheckTakesOne(c.ip, st.ips, e.ip, e.now, ip);
  }

  lemma CallStep(c: Config, st: State, e: Event, call: string)
    requires e.AllowEvent? && c.call.rate > 0 && Ok(c.call, st.calls, e.now)
    ensures var st' := Apply(c, st, e);
            var was, left := LevelOf(c, st, Call(call), e.now), LevelOf(c, st', Call(call), e.now);
            && Ok(c.call, st'.calls, e.now)
            && (call != "" ==> left + (if LetsThrough(c, st, e) && e.call == call then 1.0 else 0.0) <= was)
            && (call != "" && ((LetsThrough(c, st, e) && e.call == call) || was >= 0.0) ==> left >= 0.0)
  {
    hide Decide, Level, Check, Ok;
    DecideParts(c, st, e.ip, e.call, e.now);
    CheckTakesOne(c.call, st.calls, e.call, e.now, call);
  }

  lemma StepTakes(c: Config, st: State, e: Event, who: Who)
    requires Enforced(c, who) && Sound(c, st, e.now)
    ensures var st' := Apply(c, st, e); var was, left := LevelOf(c, st, who, e.now), LevelOf(c, st', who, e.now);
            var through := LetsThrough(c, st, e) && Concerns(who, e);
            && Sound(c, st', e.now)
            && left + (if through then 1.0 else 0.0) <= was
            && (through || was >= 0.0 ==> left >= 0.0)
  {
    hide Allow, Level, Refill, Ok, BucketOk, RefillsWithin, LetsThrough, Evict;
    match e
    case AllowEvent(ip, call, now) => RequestTakes(c, st, e, who);
    case CleanupEvent(now) =>
      var ip, call := if who.Address? then who.ip else "", if who.Call? then who.call else "";
      if c.ip.rate > 0 {
        EvictLevel(c.ip, c.ttl, st.ips, now, ip);
      }
      if c.call.rate > 0 {
        EvictLevel(c.call, c.ttl, st.calls, now, call);
      }
      NotThrough(c, st, e);
    case _ => NotThrough(c, st, e);
  }

  lemma NotThrough(c: Config, st: State, e: Event)
    requires !e.AllowEvent?
    ensures !LetsThrough(c, st, e)
  {}

  lemma RequestTakes(c: Config, st: State, e: Event, who: Who)
    requires Enforced(c, who) && Sound(c, st, e.now) && e.AllowEvent?
    ensures var st' := Apply(c, st, e); var was, left := LevelOf(c, st, who, e.now), LevelOf(c, st', who, e.now);
            var through := LetsThrough(c, st, e) && Concerns(who, e);
            && Sound(c, st', e.now)
            && left + (if through then 1.0 else 0.0) <= was
            && (through || was >= 0.0 ==> left >= 0.0)
  {
    hide Apply, Level, LevelOf, Ok, BucketOk, RefillsWithin, LetsThrough;
    if c.global.rate > 0 {
      GlobalStep(c, st, e);
    }
    if c.ip.rate > 0 {
      AddressStep(c, st, e, if who.Address? then who.ip else "");
    }
    if c.call.rate > 0 {
      CallStep(c, st, e, if who.Call? then who.call else "");
    }
  }

  lemma LevelOfGrows(c: Config, st: State, who: Who, a: real, b: real)
    requires a <= b && LimitOf(c, who).rate > 0
    ensures var l := LimitOf(c, who);
            && LevelOf(c, st, who, a) <= LevelOf(c, st, who, b) <= LevelOf(c, st, who, a) + Gain(l, a, b)
            && LevelOf(c, st, who, b) <= l.burst as real
  {
    hide Gain;
    match who
    case Everyone => LevelGrows(c.global, map["" := Entry(st.global, 0.0, 0, 0)], "", a, b);
    case Address(ip) => LevelGrows(c.ip, st.ips, ip, a, b);
    case Call(call) => LevelGrows(c.call, st.calls, call, a, b);
  }

  lemma SoundLater(c: Config, st: State, a: real, b: real)
    requires Sound(c, st, a) && a <= b
    ensures Sound(c, st, b)
  {}

  ghost predicate Ordered(es: seq<Event>) {
    forall i, j :: 0 <= i < j < |es| ==> es[i].now <= es[j].now
  }

  /** How many requests that concern `who` are let through in this run. */
  function Through(c: Config, st: State, es: seq<Event>, who: Who): nat {
    if es == [] then 0
    else
      var rest, e := es[..|es| - 1], es[|es| - 1];
      Through(c, st, rest, who) + if Concerns(who, e) && LetsThrough(c, Run(c, st, rest), e) then 1 else 0
  }

  lemma {:induction false} ThroughPlusLevel(c: Config, st: State, es: seq<Event>, who: Who)
    requires es != [] && Ordered(es) && Enforced(c, who) && Sound(c, st, es[0].now)
    ensures var n, last := Through(c, st, es, who), es[|es| - 1].now;
            var level := LevelOf(c, Run(c, st, es), who, last);
            && Sound(c, Run(c, st, es), last)
            && n as real + level <= LevelOf(c, st, who, es[0].now) + Gain(LimitOf(c, who), es[0].now, last)
            && (n > 0 ==> level >= 0.0)
  {
    hide Apply, LevelOf, Enforced, Sound, Gain, LetsThrough, Concerns;
    EnforcedIsOn(c, who);
    var k := |es| - 1;
    var l, e := LimitOf(c, who), es[k];
    var before := Run(c, st, es[..k]);
    if k == 0 {
      NoGain(l, e.now);
      StepTakes(c, before, e, who);
    } else {
      ThroughPlusLevel(c, st, es[..k], who);
      SoundLater(c, before, es[k - 1].now, e.now);
      LevelOfGrows(c, before, who, es[k - 1].now, e.now);
      GainSplits(l, es[0].now, es[k - 1].now, e.now);
      StepTakes(c, before, e, who);
    }
  }

  lemma EnforcedIsOn(c: Config, who: Who)
    requires Enforced(c, who)
    ensures LimitOf(c, who).rate > 0
  {}

  lemma {:induction false} RunIsSound(c: Config, start: real, es: seq<Event>, now: real)
    requires Ordered(es) && (es != [] ==> start <= es[0].now && es[|es| - 1].now <= now) && start <= now
    ensures Sound(c, Run(c, New(c, start), es), now)
  {
    if es == [] {
    } else {
      var k := |es| - 1;
      RunIsSound(c, start, es[..k], es[k].now);
      hide Sound, Apply;
      StepIsSound(c, Run(c, New(c, start), es[..k]), es[k]);
      SoundLater(c, Run(c, New(c, start), es), es[k].now, now);
    }
  }

  lemma StepIsSound(c: Config, st: State, e: Event)
    requires Sound(c, st, e.now)
    ensures Sound(c, Apply(c, st, e), e.now)
  {
    hide Allow, Level, Refill, Ok, BucketOk, Evict;
    match e
    case AllowEvent(ip, call, now) =>
      if c.global.rate > 0 { GlobalStep(c, st, e); }
      if c.ip.rate > 0 { AddressStep(c, st, e, ""); }
      if c.call.rate > 0 { CallStep(c, st, e, ""); }
    case CleanupEvent(now) =>
      if c.ip.rate > 0 { EvictLevel(c.ip, c.ttl, st.ips, now, ""); }
      if c.call.rate > 0 { EvictLevel(c.call, c.ttl, st.calls, now, ""); }
    case _ =>
  }

  /** A limit that is off, or has a token left, lets the request pass. */
  ghost predicate HasRoom(c: Config, st: State, who: Who, now: real) {
    LimitOf(c, who).rate > 0 ==> LevelOf(c, st, who, now) >= 1.0
  }

  /** A request is let through exactly when its address is not blocked and every limit has room. */
  lemma AllowedIff(c: Config, st: State, ip: string, call: string, now: real)
    requires Sound(c, st, now)
    ensures Allow(c, st, ip, call, now).1 <==>
              && !Blocked(c, st, ip, now)
              && HasRoom(c, st, Everyone, now)
              && HasRoom(c, st, Address(ip), now)
              && (call != "" ==> HasRoom(c, st, Call(call), now))
  {
    hide Check, Level, Ok, Gain, LiftBlock, MaybeBlock, Counted, Blocked;
    BlockingLeaves(c, st, ip, now);
    if c.ip.rate > 0 {
      CheckTakesOne(c.ip, st.ips, ip, now, ip);
    }
    if c.call.rate > 0 {
      CheckTakesOne(c.call, st.calls, call, now, call);
    }
  }

  lemma OrderedParts(past: seq<Event>, window: seq<Event>)
    requires Ordered(past + window)
    ensures Ordered(past) && Ordered(window)
    ensures past != [] && window != [] ==> past[|past| - 1].now <= window[0].now && past[0] == (past + window)[0]
    ensures past == [] && window != [] ==> window[0] == (past + window)[0]
    ensures window != [] ==> (past + window)[0].now <= window[0].now
  {
    var all := past + window;
    assert forall i :: 0 <= i < |past| ==> past[i] == all[i];
    assert forall i :: 0 <= i < |window| ==> window[i] == all[|past| + i];
  }

  /** In every window of every run, the limiter lets through at most the burst plus what the window's
      duration gains at the rate, in all, per address and per call, with evictions, blocks and cleanups in
      between. */
  lemma WindowBound(c: Config, start: real, past: seq<Event>, window: seq<Event>, who: Who)
    requires Enforced(c, who) && window != [] && Ordered(past + window) && start <= (past + window)[0].now
    ensures var n := Through(c, Run(c, New(c, start), past), window, who); var l := LimitOf(c, who);
            n == 0 || n as real <= l.burst as real + Gain(l, window[0].now, window[|window| - 1].now)
  {
    hide LevelOf, Enforced, Sound, Run, Ordered, Gain;
    var st, first := Run(c, New(c, start), past), window[0].now;
    OrderedParts(past, window);
    RunIsSound(c, start, past, first);
    EnforcedIsOn(c, who);
    ThroughPlusLevel(c, st, window, who);
    LevelOfGrows(c, st, who, first, first);
  }

  // ---- The bound holds in every run exactly when buckets refill within the time-to-live

  /** The window lets through at most the burst plus what its duration gains. */
  ghost predicate Within(c: Config, start: real, past: seq<Event>, window: seq<Event>, who: Who)
    requires window != []
  {
    var n := Through(c, Run(c, New(c, start), past), window, who); var l := LimitOf(c, who);
    n == 0 || n as real <= l.burst as real + Gain(l, window[0].now, window[|window| - 1].now)
  }

  ghost predicate Timely(start: real, past: seq<Event>, window: seq<Event>) {
    window != [] && Ordered(past + window) && start <= (past + window)[0].now
  }

  /** No other limit stands in the way of a request for one address or one call. */
  predicate Alone(c: Config, who: Who) {
    !who.Everyone? && c.global.rate <= 0 && (who.Call? ==> c.ip.rate <= 0 && who.call != "")
  }

  function RequestOf(who: Who, now: real): Event
    requires !who.Everyone?
  {
    AllowEvent(if who.Address? then who.ip else "", if who.Call? then who.call else "", now)
  }

  function EntriesOf(st: State, who: Who): Entries {
    if who.Address? then st.ips else st.calls
  }

  function KeyOf(who: Who): string {
    match who case Everyone => "" case Address(ip) => ip case Call(call) => call
  }

  /** Sound, nobody blocked, and these tokens left. */
  ghost predicate Stands(c: Config, st: State, who: Who, now: real, level: real) {
    Sound(c, st, now) && st.blocked == map[] && LevelOf(c, st, who, now) == level
  }

  /** One request takes one token and is let through. */
  lemma AskPasses(c: Config, st: State, who: Who, now: real, level: real)
    requires Alone(c, who) && LimitOf(c, who).rate > 0 && Stands(c, st, who, now, level) && level >= 1.0
    ensures var e := RequestOf(who, now); var st' := Apply(c, st, e);
            && LetsThrough(c, st, e) && Concerns(who, e) && Stands(c, st', who, now, level - 1.0)
            && KeyOf(who) in EntriesOf(st', who) && EntriesOf(st', who)[KeyOf(who)].lastAccess == now
  {
    hide Level, Ok, BucketOk, Refill, Tally;
    if who.Address? {
      CheckTakesOne(c.ip, st.ips, who.ip, now, who.ip);
    } else {
      CheckTakesOne(c.call, st.calls, who.call, now, who.call);
    }
    StepIsSound(c, st, RequestOf(who, now));
  }

  function Asks(who: Who, now: real, n: nat): seq<Event>
    requires !who.Everyone?
  {
    if n == 0 then [] else Asks(who, now, n - 1) + [RequestOf(who, now)]
  }

  lemma {:induction false} AsksAre(who: Who, now: real, n: nat)
    requires !who.Everyone?
    ensures |Asks(who, now, n)| == n && forall i :: 0 <= i < n ==> Asks(who, now, n)[i].now == now
  {
    if n == 0 {
    } else {
      AsksAre(who, now, n - 1);
    }
  }

  lemma {:induction false} AsksPass(c: Config, st: State, who: Who, now: real, level: real, n: nat)
    requires Alone(c, who) && LimitOf(c, who).rate > 0 && Stands(c, st, who, now, level) && level >= n as real
    ensures var st' := Run(c, st, Asks(who, now, n));
            && Through(c, st, Asks(who, now, n), who) == n && Stands(c, st', who, now, level - n as real)
            && (n > 0 ==> KeyOf(who) in EntriesOf(st', who) && EntriesOf(st', who)[KeyOf(who)].lastAccess == now)
  {
    hide Stands, Apply, LetsThrough, Concerns, Run, Through, EntriesOf, KeyOf, RequestOf;
    if n == 0 {
      RunOfNothing(c, st, who);
    } else {
      assert n as real == (n - 1) as real + 1.0;
      AsksPass(c, st, who, now, level, n - 1);
      RunSnoc(c, st, Asks(who, now, n - 1), RequestOf(who, now), who);
      AskPasses(c, Run(c, st, Asks(who, now, n - 1)), who, now, level - (n - 1) as real);
    }
  }

  lemma RunOfNothing(c: Config, st: State, who: Who)
    ensures Run(c, st, []) == st && Through(c, st, [], who) == 0
  {}

  lemma RunSnoc(c: Config, st: State, es: seq<Event>, e: Event, who: Who)
    ensures Run(c, st, es + [e]) == Apply(c, Run(c, st, es), e)
    ensures Through(c, st, es + [e], who) ==
              Through(c, st, es, who) + if Concerns(who, e) && LetsThrough(c, Run(c, st, es), e) then 1 else 0
  {
    hide Apply, Concerns, LetsThrough;
    assert (es + [e])[..|es|] == es;
  }

  /** Cleaning up an entry idle for longer than the time-to-live makes its bucket full. */
  lemma CleanupFills(c: Config, st: State, who: Who, now: real, level: real)
    requires !who.Everyone? && LimitOf(c, who).rate > 0 && Stands(c, st, who, now, level)
    requires KeyOf(who) in EntriesOf(st, who) && now - EntriesOf(st, who)[KeyOf(who)].lastAccess > c.ttl
    ensures Stands(c, Apply(c, st, CleanupEvent(now)), who, now, LimitOf(c, who).burst as real)
  {
    hide Refill, Ok, BucketOk;
    StepIsSound(c, st, CleanupEvent(now));
  }

  lemma {:induction false} ThroughConcat(c: Config, st: State, a: seq<Event>, b: seq<Event>, who: Who)
    ensures Run(c, st, a + b) == Run(c, Run(c, st, a), b)
    ensures Through(c, st, a + b, who) == Through(c, st, a, who) + Through(c, Run(c, st, a), b, who)
  {
    hide Apply, LetsThrough, Concerns;
    if b == [] {
      assert a + b == a;
    } else {
      var k := |b| - 1;
      assert (a + b)[..|a + b| - 1] == a + b[..k] && (a + b)[|a + b| - 1] == b[k];
      ThroughConcat(c, st, a, b[..k], who);
    }
  }

  /** Spend the burst, clean up when the entry is idle but not full, spend the burst again. */
  function TwoBursts(c: Config, who: Who, t: real): seq<Event>
    requires !who.Everyone? && LimitOf(c, who).burst >= 1
  {
    Asks(who, 0.0, LimitOf(c, who).burst) + [CleanupEvent(t)] + Asks(who, t, LimitOf(c, who).burst)
  }

  lemma TwoBurstsPass(c: Config, who: Who, t: real)
    requires Alone(c, who) && LimitOf(c, who).rate > 0 && LimitOf(c, who).burst >= 1 && t > c.ttl >= 0.0
    ensures Through(c, New(c, 0.0), TwoBursts(c, who, t), who) == 2 * LimitOf(c, who).burst
  {
    hide Apply, Run, LevelOf, Sound, Asks, Concerns, LetsThrough;
    var l := LimitOf(c, who);
    var (a, b, e) := (Asks(who, 0.0, l.burst), Asks(who, t, l.burst), CleanupEvent(t));
    StartsFull(c, who);
    AsksPass(c, New(c, 0.0), who, 0.0, l.burst as real, l.burst);
    var st := Run(c, New(c, 0.0), a);
    StandsLater(c, st, who, 0.0, t);
    CleanupFills(c, st, who, t, LevelOf(c, st, who, t));
    OneEvent(c, st, e, who);
    AsksPass(c, Run(c, st, [e]), who, t, l.burst as real, l.burst);
    ThroughConcat(c, New(c, 0.0), a, [e], who);
    ThroughConcat(c, New(c, 0.0), a + [e], b, who);
  }

  lemma StartsFull(c: Config, who: Who)
    requires !who.Everyone?
    ensures Stands(c, New(c, 0.0), who, 0.0, LimitOf(c, who).burst as real)
  {}

  lemma StandsLater(c: Config, st: State, who: Who, a: real, b: real)
    requires a <= b && Sound(c, st, a) && st.blocked == map[]
    ensures Stands(c, st, who, b, LevelOf(c, st, who, b))
  {
    SoundLater(c, st, a, b);
  }

  lemma OneEvent(c: Config, st: State, e: Event, who: Who)
    requires e.CleanupEvent?
    ensures Run(c, st, [e]) == Apply(c, st, e) && Through(c, st, [e], who) == 0
  {
    hide Apply;
    assert [e][..0] == [];
  }

  lemma TwoBurstsTimely(c: Config, who: Who, t: real)
    requires !who.Everyone? && LimitOf(c, who).burst >= 1 && t >= 0.0
    ensures var es := TwoBursts(c, who, t);
            Timely(0.0, [], es) && es[0].now == 0.0 && es[|es| - 1].now == t
  {
    hide Asks, Ordered;
    var es := TwoBursts(c, who, t);
    var n := LimitOf(c, who).burst;
    AsksAre(who, 0.0, n);
    AsksAre(who, t, n);
    assert [] + es == es;
    TwoTimesOrdered(Asks(who, 0.0, n), [CleanupEvent(t)] + Asks(who, t, n), 0.0, t);
    assert Asks(who, 0.0, n) + ([CleanupEvent(t)] + Asks(who, t, n)) == es;
    assert es[0] == Asks(who, 0.0, n)[0] && es[|es| - 1] == Asks(who, t, n)[n - 1];
  }

  lemma TwoTimesOrdered(a: seq<Event>, b: seq<Event>, s: real, t: real)
    requires s <= t && (forall i :: 0 <= i < |a| ==> a[i].now == s) && (forall i :: 0 <= i < |b| ==> b[i].now == t)
    ensures Ordered(a + b)
  {}

  /** When a bucket does not refill within the time-to-live, two bursts around a cleanup pass the bound. */
  lemma BoundFails(c: Config, who: Who) returns (window: seq<Event>)
    requires Alone(c, who) && LimitOf(c, who).rate > 0 && c.ttl >= 0.0 && !RefillsWithin(LimitOf(c, who), c.ttl)
    ensures Timely(0.0, [], window) && !Within(c, 0.0, [], window, who)
  {
    hide Timely, TwoBursts, Run, Through, New, Gain;
    var l := LimitOf(c, who);
    ShowingTimeIsLate(l, c.ttl);
    TimesGrows(0.0, c.ttl, l.rate as real);
    var t := ShowingTime(l, c.ttl);
    window := TwoBursts(c, who, t);
    hide ShowingTime, RefillsWithin;
    TwoBurstsPass(c, who, t);
    TwoBurstsTimely(c, who, t);
    GainFromZero(l, t);
    RunOfNothing(c, New(c, 0.0), who);
  }

  lemma GainFromZero(l: Limit, t: real)
    ensures Gain(l, 0.0, t) == t * (l.rate as real)
  {}

  /** For one address or one call with no other limit in the way: the bound holds in every window of every
      run, if and only if the bucket refills within the time-to-live. */
  lemma WindowBoundIff(c: Config, who: Who)
    requires Alone(c, who) && LimitOf(c, who).rate > 0 && c.ttl >= 0.0
    ensures (forall start, past, window :: Timely(start, past, window) ==> Within(c, start, past, window, who)) <==>
            RefillsWithin(LimitOf(c, who), c.ttl)
  {
    hide RefillsWithin, Within;
    if RefillsWithin(LimitOf(c, who), c.ttl) {
      forall start, past, window | Timely(start, past, window) ensures Within(c, start, past, window, who) {
        BoundHolds(c, start, past, window, who);
      }
    } else {
      hide Timely;
      var window := BoundFails(c, who);
    }
  }

  lemma BoundHolds(c: Config, start: real, past: seq<Event>, window: seq<Event>, who: Who)
    requires Timely(start, past, window) && Enforced(c, who)
    ensures Within(c, start, past, window, who)
  {
    hide Run, Through, Gain, Ordered;
    WindowBound(c, start, past, window, who);
  }

  /** A burst of two at one a second, kept for one second: four requests pass within a second and a half. */
  lemma FourPassInsteadOfThree(ip: string)
    ensures var off := Limit(0, 0); var c := Config(off, Limit(2, 1), off, 1.0, 0.0);
            Through(c, New(c, 0.0), TwoBursts(c, Address(ip), 1.5), Address(ip)) == 4
  {
    var off := Limit(0, 0);
    TwoBurstsPass(Config(off, Limit(2, 1), off, 1.0, 0.0), Address(ip), 1.5);
  }
}

/** The limiter objects, proved against the specification. */
module RateLimiters {
  import opened TokenBuckets
  import opened RateLimiting

  class TokenBucket {
    const limit: Limit
    var tokens: real
    var lastRefill: real

    constructor (limit: Limit, now: real)
      ensures this.limit == limit && View() == Full(limit, now)
    {
      this.limit := limit;
      tokens, lastRefill := limit.burst as real, now;
    }

    /** A bucket in the middle of its life. */
    constructor At(limit: Limit, b: Bucket)
      ensures this.limit == limit && View() == b
    {
      this.limit := limit;
      tokens, lastRefill := b.tokens, b.last;
    }

    function View(): Bucket
      reads this
    {
      Bucket(tokens, lastRefill)
    }

    method Refill(now: real)
      modifies this
      ensures View() == TokenBuckets.Refill(limit, old(View()), now)
    {
      var elapsed := now - lastRefill;
      lastRefill := now;
      tokens := tokens + elapsed * (limit.rate as real);
      if tokens > limit.burst as real {
        tokens := limit.burst as real;
      }
    }

    method Allow(now: real) returns (ok: bool)
      modifies this
      ensures (View(), ok) == TokenBuckets.Allow(limit, old(View()), now)
    {
      Refill(now);
      if tokens >= 1.0 {
        tokens := tokens - 1.0;
        return true;
      }
      return false;
    }
  }

  class RateLimiter {
    const config: Config
    const globalBucket: TokenBucket
    var ipBuckets: Entries
    var callBuckets: Entries
    var blockedIPs: map<string, real>
    var stats: Stats

    constructor (config: Config, now: real)
      ensures this.config == config && Valid() && View() == New(config, now) && fresh(globalBucket)
    {
      this.config := config;
      globalBucket := new TokenBucket(config.global, now);
      ipBuckets, callBuckets, blockedIPs := map[], map[], map[];
      stats := Stats(0, map[], 0, 0, 0);
    }

    ghost predicate Valid() {
      globalBucket.limit == config.global
    }

    ghost function View(): State
      reads this, globalBucket
    {
      State(globalBucket.View(), ipBuckets, callBuckets, blockedIPs, stats)
    }

    method IsBlocked(ip: string, now: real) returns (blocked: bool)
      modifies this
      ensures blocked <==> Blocked(config, old(View()), ip, now)
      ensures View() == LiftBlock(config, old(View()), ip, now)
    {
      if ip !in blockedIPs {
        return false;
      }
      if now - blockedIPs[ip] > config.blockDuration {
        blockedIPs := blockedIPs - {ip};
        stats := stats.(blockedIPs := stats.blockedIPs - 1);
        return false;
      }
      return true;
    }

    /** The common body of checkIPLimit and checkCallLimit. */
    method CheckLimit(limit: Limit, entries: Entries, key: string, now: real)
      returns (entries': Entries, added: bool, ok: bool)
      ensures (entries', ok) == Check(limit, entries, key, now) && added == (key !in entries)
    {
      var entry;
      added := key !in entries;
      if added {
        entry := Entry(Full(limit, now), now, 0, 0);
      } else {
        entry := entries[key];
      }
      entry := entry.(lastAccess := now, requests := entry.requests + 1);
      var bucket := new TokenBucket.At(limit, entry.bucket);
      ok := bucket.Allow(now);
      entry := entry.(bucket := bucket.View());
      if !ok {
        entry := entry.(rejected := entry.rejected + 1);
      }
      entries' := entries[key := entry];
    }

    method MaybeBlockIP(ip: string, now: real)
      modifies this
      ensures View() == MaybeBlock(old(View()), ip, now)
    {
      if ip !in ipBuckets {
        return;
      }
      var total, rejected := ipBuckets[ip].requests, ipBuckets[ip].rejected;
      if total > 10 {
        MoreThanHalf(rejected, total);
      }
      if total > 10 && rejected as real / total as real > 0.5 {
        blockedIPs := blockedIPs[ip := now];
        stats := stats.(blockedIPs := stats.blockedIPs + 1);
      }
    }

    method Count(v: Verdict)
      modifies this`stats
      ensures View() == Counted(old(View()), v)
    {
      stats := stats.(total := stats.total + 1,
                      verdicts := stats.verdicts[v := (if v in stats.verdicts then stats.verdicts[v] else 0) + 1]);
    }

    method Allow(ip: string, call: string, now: real) returns (ok: bool)
      requires Valid()
      modifies this, globalBucket
      ensures (View(), ok) == RateLimiting.Allow(config, old(View()), ip, call, now)
    {
      hide Check, TokenBuckets.Allow, Counted, MaybeBlock, LiftBlock;
      if Blocked(config, View(), ip, now) {
        BlockedStays(config, View(), ip, now);
      }
      var blocked := IsBlocked(ip, now);
      if blocked {
        Count(RejectedBlocked);
        return false;
      }
      if config.global.rate > 0 {
        ok := globalBucket.Allow(now);
        if !ok {
          Count(RejectedGlobal);
          return;
        }
      }
      var added;
      if config.ip.rate > 0 {
        ipBuckets, added, ok := CheckLimit(config.ip, ipBuckets, ip, now);
        stats := stats.(activeIPs := stats.activeIPs + if added then 1 else 0);
        if !ok {
          MaybeBlockIP(ip, now);
          Count(RejectedPerIP);
          return;
        }
      }
      if config.call.rate > 0 && call != "" {
        callBuckets, added, ok := CheckLimit(config.call, callBuckets, call, now);
        stats := stats.(activeCalls := stats.activeCalls + if added then 1 else 0);
        if !ok {
          Count(RejectedPerCall);
          return;
        }
      }
      Count(Allowed);
      return true;
    }

    method BlockIP(ip: string, now: real)
      modifies this
      ensures View() == Block(old(View()), ip, now)
    {
      if ip !in blockedIPs {
        stats := stats.(blockedIPs := stats.blockedIPs + 1);
      }
      blockedIPs := blockedIPs[ip := now];
    }

    method UnblockIP(ip: string)
      modifies this
      ensures View() == Unblock(old(View()), ip)
    {
      if ip in blockedIPs {
        blockedIPs := blockedIPs - {ip};
        stats := stats.(blockedIPs := stats.blockedIPs - 1);
      }
    }

    /** One of the three loops of cleanup; removed counts the deletions. */
    method EvictIdle(entries: Entries, now: real) returns (kept: Entries, removed: nat)
      ensures kept == Evict(config.ttl, entries, now) && removed == |entries| - |kept|
    {
      kept, removed := entries, 0;
      var todo := entries.Keys;
      while todo != {}
        invariant todo <= kept.Keys <= entries.Keys && removed == |entries| - |kept|
        invariant forall k <- entries :: k in kept <==> k in todo || now - entries[k].lastAccess <= config.ttl
        invariant forall k <- kept :: kept[k] == entries[k]
        decreases todo
      {
        var key :| key in todo;
        todo := todo - {key};
        if now - kept[key].lastAccess > config.ttl {
          SmallerByOne(kept, key);
          kept := kept - {key};
          removed := removed + 1;
        }
      }
    }

    method Cleanup(now: real)
      modifies this
      ensures View() == RateLimiting.Cleanup(config, old(View()), now)
    {
      hide Evict, LiveBlocks;
      var ips, goneIPs := EvictIdle(ipBuckets, now);
      var calls, goneCalls := EvictIdle(callBuckets, now);
      var blocks, expired := ExpireBlocks(now);
      ipBuckets, callBuckets, blockedIPs := ips, calls, blocks;
      stats := stats.(activeIPs := stats.activeIPs - goneIPs,
                      activeCalls := stats.activeCalls - goneCalls,
                      blockedIPs := stats.blockedIPs - expired);
    }

    method ExpireBlocks(now: real) returns (blocks: map<string, real>, removed: nat)
      ensures blocks == LiveBlocks(config, blockedIPs, now)
      ensures removed == |blockedIPs| - |blocks|
    {
      blocks, removed := blockedIPs, 0;
      var todo := blockedIPs.Keys;
      while todo != {}
        invariant todo <= blocks.Keys <= blockedIPs.Keys && removed == |blockedIPs| - |blocks|
        invariant forall k <- blockedIPs :: k in blocks <==> k in todo || now - blockedIPs[k] <= config.blockDuration
        invariant forall k <- blocks :: blocks[k] == blockedIPs[k]
        decreases todo
      {
        var ip :| ip in todo;
        todo := todo - {ip};
        if now - blocks[ip] > config.blockDuration {
          SmallerByOne(blocks, ip);
          blocks := blocks - {ip};
          removed := removed + 1;
        }
      }
    }
  }

  lemma RatioAboveHalf(p: real, w: real)
    requires w > 0.0
    ensures p / w > 0.5 <==> p > 0.5 * w
  {
    var q := p / w;
    assert q * w == p;
    assert (q - 0.5) * w == p - 0.5 * w;
  }

  lemma MoreThanHalf(part: nat, whole: nat)
    requires whole > 0
    ensures part as real / whole as real > 0.5 <==> 2 * part > whole
  {
    RatioAboveHalf(part as real, whole as real);
    assert (2 * part) as real == 2.0 * (part as real);
  }

  lemma SmallerByOne<T>(m: map<string, T>, key: string)
    requires key in m
    ensures |m - {key}| == |m| - 1
  {
    assert (m - {key})[key := m[key]] == m;
  }

  lemma BlockedStays(c: Config, st: State, ip: string, now: real)
    requires Blocked(c, st, ip, now)
    ensures LiftBlock(c, st, ip, now) == st
  {}
}
