/**
 * The in-memory limiter: one pruned list of accepted times per key, against the ghost
 * record of every attempt ever made.
 */
module RateLimiter {
  import opened Basics
  import opened SlidingWindow

  datatype LimitResult = LimitResult(allowed: bool, retryAfterMs: int)

  /** The limit and window a key is always hit with. */
  datatype Rule = Rule(limit: nat, window: int)

  /** From `clock` on, both lists show the same window. */
  ghost predicate SameWindows(stored: seq<int>, history: seq<int>, window: int, clock: int) {
    forall now :: now >= clock ==> Recent(stored, window, now) == Recent(history, window, now)
  }

  ghost predicate KeyOk(stored: seq<int>, attempts: seq<int>, rule: Rule, clock: int) {
    && rule.limit >= 1 && Ascending(attempts) && UpTo(attempts, clock)
    && SameWindows(stored, Accepted(attempts, rule.limit, rule.window), rule.window, clock)
  }

  predicate Expired(times: seq<int>, window: int, now: int) {
    forall i :: 0 <= i < |times| ==> now - times[i] >= window
  }

  /** Whether an attempt at that moment would be accepted, with no other in between. */
  predicate Free(attempts: seq<int>, rule: Rule, at: int) {
    |Recent(Accepted(attempts, rule.limit, rule.window), rule.window, at)| < rule.limit
  }

  /** The list an accepted or refused hit writes shows the same later windows as the history. */
  lemma HitKeeps(stored: seq<int>, attempts: seq<int>, rule: Rule, clock: int, now: int)
    requires KeyOk(stored, attempts, rule, clock) && now >= clock
    ensures var recent := Recent(stored, rule.window, now);
            KeyOk(if |recent| >= rule.limit then recent else recent + [now], attempts + [now], rule, now)
  {
    var history := Accepted(attempts, rule.limit, rule.window);
    var recent := Recent(history, rule.window, now);
    assert recent == Recent(stored, rule.window, now);
    AcceptedNext(attempts, rule.limit, rule.window, now);
    WindowsStay(history, rule.window, now);
    assert Ascending(attempts + [now]) && UpTo(attempts + [now], now);
    hide Recent, Accepted, Ascending, UpTo, SameWindows;
  }

  lemma AcceptedNext(attempts: seq<int>, limit: nat, window: int, now: int)
    ensures var history := Accepted(attempts, limit, window);
            Accepted(attempts + [now], limit, window) == if |Recent(history, window, now)| >= limit then history else history + [now]
  {
    assert (attempts + [now])[..|attempts|] == attempts;
  }

  /** Pruning, with or without recording the present, changes no later window. */
  lemma WindowsStay(history: seq<int>, window: int, now: int)
    ensures SameWindows(Recent(history, window, now), history, window, now)
    ensures SameWindows(Recent(history, window, now) + [now], history + [now], window, now)
  {
    var recent := Recent(history, window, now);
    hide Recent;
    forall later | later >= now
      ensures Recent(recent, window, later) == Recent(history, window, later)
      ensures Recent(recent + [now], window, later) == Recent(history + [now], window, later)
    {
      PruningIsInvisible(history, window, now, later);
      RecentAppend(recent, [now], window, later);
      RecentAppend(history, [now], window, later);
    }
  }

  /** The pruned list counts the half-open window of the full history. */
  lemma PrunedCounts(stored: seq<int>, attempts: seq<int>, rule: Rule, clock: int, now: int)
    requires KeyOk(stored, attempts, rule, clock) && now >= clock
    ensures Recent(stored, rule.window, now) == Within(Accepted(attempts, rule.limit, rule.window), rule.window, now)
  {
    AcceptedAscends(attempts, rule.limit, rule.window, now);
    RecentIsWithin(Accepted(attempts, rule.limit, rule.window), rule.window, now);
  }

  /** The refusal's wait, taken from the pruned list, is the least one that helps. */
  lemma WaitIsLeast(stored: seq<int>, attempts: seq<int>, rule: Rule, clock: int, now: int)
    requires KeyOk(stored, attempts, rule, clock) && now >= clock && |Recent(stored, rule.window, now)| >= rule.limit
    ensures var wait := rule.window - (now - Recent(stored, rule.window, now)[0]);
            && wait >= 1
            && forall later :: later >= now ==> (Free(attempts, rule, later) <==> later - now >= wait)
  {
    hide Recent, Accepted, Ascending;
    LeastWait(attempts, rule.limit, rule.window, now, 0);
    var wait := rule.window - (now - Recent(stored, rule.window, now)[0]);
    forall later | later >= now ensures Free(attempts, rule, later) <==> later - now >= wait {
      LeastWait(attempts, rule.limit, rule.window, now, later - now);
    }
  }

  /** Accepted exactly when the full history leaves room; a refusal tells the least wait after which a retry succeeds. */
  ghost predicate Answers(r: LimitResult, attempts: seq<int>, rule: Rule, now: int) {
    && (r.allowed <==> |Within(Accepted(attempts, rule.limit, rule.window), rule.window, now)| < rule.limit)
    && (r.allowed ==> r.retryAfterMs == 0)
    && (!r.allowed ==> r.retryAfterMs >= 1)
    && (!r.allowed ==> forall later :: later >= now ==> (Free(attempts, rule, later) <==> later - now >= r.retryAfterMs))
  }

  /** The answer computed from the pruned list. */
  function Answer(stored: seq<int>, limit: nat, window: int, now: int): LimitResult
    requires limit >= 1
  {
    var recent := Recent(stored, window, now);
    if |recent| >= limit then
      var wait := window - (now - recent[0]);
      LimitResult(false, if wait > 1 then wait else 1)
    else LimitResult(true, 0)
  }

  lemma AnswerIsRight(stored: seq<int>, attempts: seq<int>, rule: Rule, clock: int, now: int)
    requires KeyOk(stored, attempts, rule, clock) && now >= clock
    ensures Answers(Answer(stored, rule.limit, rule.window, now), attempts, rule, now)
  {
    PrunedCounts(stored, attempts, rule, clock, now);
    if |Recent(stored, rule.window, now)| >= rule.limit { WaitIsLeast(stored, attempts, rule, clock, now); }
    hide KeyOk, Recent, Within, Accepted, Free;
  }

  /** Time passing, and forgetting a fully expired list, keep the agreement. */
  lemma SweepKeeps(stored: seq<int>, attempts: seq<int>, rule: Rule, clock: int, now: int, window: int)
    requires KeyOk(stored, attempts, rule, clock) && now >= clock && rule.window <= window
    ensures KeyOk(stored, attempts, rule, now)
    ensures Expired(stored, window, now) ==> KeyOk([], attempts, rule, now)
  {
    if Expired(stored, window, now) {
      forall later | later >= now ensures Recent(stored, rule.window, later) == [] { AllExpired(stored, rule.window, later); }
    }
  }

  /** A counter's name. */
  datatype Key = Key(text: string)

  type Times = map<Key, seq<int>>

  /** Every attempt ever made per key, the rule each key is hit with, and the latest time seen. */
  datatype Record = Record(attempts: Times, rules: map<Key, Rule>, clock: int)

  function At(times: Times, key: Key): seq<int> { if key in times then times[key] else [] }

  /** The record with one more attempt. */
  function Noted(r: Record, key: Key, rule: Rule, now: int): Record {
    Record(r.attempts[key := At(r.attempts, key) + [now]], r.rules[key := rule], now)
  }

  /** The lists after a hit. */
  function Pruned(hits: Times, key: Key, limit: nat, window: int, now: int): Times {
    hits[key := AfterHit(At(hits, key), limit, window, now)]
  }

  /** Every key's stored list agrees with the record of its attempts. */
  ghost predicate AllOk(hits: Times, r: Record) {
    && hits.Keys <= r.rules.Keys && r.attempts.Keys == r.rules.Keys
    && forall key :: key in r.rules ==> KeyOk(At(hits, key), At(r.attempts, key), r.rules[key], r.clock)
  }

  /** What a hit writes for its key. */
  function AfterHit(stored: seq<int>, limit: nat, window: int, now: int): seq<int> {
    var recent := Recent(stored, window, now);
    if |recent| >= limit then recent else recent + [now]
  }

  lemma LimitIsPositive(stored: seq<int>, attempts: seq<int>, rule: Rule, clock: int)
    requires KeyOk(stored, attempts, rule, clock)
    ensures rule.limit >= 1
  {
  }

  lemma FirstHit(rule: Rule, clock: int)
    requires rule.limit >= 1
    ensures KeyOk([], [], rule, clock)
  {
  }

  lemma HitKeepsAll(hits: Times, r: Record, key: Key, rule: Rule, now: int)
    requires AllOk(hits, r) && now >= r.clock && rule.limit >= 1 && (key in r.rules ==> r.rules[key] == rule)
    ensures KeyOk(At(hits, key), At(r.attempts, key), rule, r.clock)
    ensures AllOk(Pruned(hits, key, rule.limit, rule.window, now), Noted(r, key, rule, now))
  {
    hide KeyOk, Recent;
    FirstHit(rule, r.clock);
    HitKeeps(At(hits, key), At(r.attempts, key), rule, r.clock, now);
    forall k | k in r.rules && k != key ensures KeyOk(At(hits, k), At(r.attempts, k), r.rules[k], now) {
      assert KeyOk(At(hits, k), At(r.attempts, k), r.rules[k], r.clock);
      LimitIsPositive(At(hits, k), At(r.attempts, k), r.rules[k], r.clock);
      SweepKeeps(At(hits, k), At(r.attempts, k), r.rules[k], r.clock, now, r.rules[k].window);
    }
  }

  lemma SweepKeepsAll(hits: Times, r: Record, swept: Times, window: int, now: int)
    requires AllOk(hits, r) && now >= r.clock && forall key :: key in r.rules ==> r.rules[key].window <= window
    requires forall key :: key in swept <==> key in hits && !Expired(hits[key], window, now)
    requires forall key :: key in swept ==> swept[key] == hits[key]
    ensures AllOk(swept, r.(clock := now))
  {
    forall k | k in r.rules ensures KeyOk(At(swept, k), At(r.attempts, k), r.rules[k], now) {
      SweepKeeps(At(hits, k), At(r.attempts, k), r.rules[k], r.clock, now, window);
    }
  }

  /** Prunes the list; refuses if it is full, else records the attempt. */
  method Judge(stored: seq<int>, limit: nat, windowMs: int, now: int) returns (recent: seq<int>, r: LimitResult)
    requires limit >= 1
    ensures recent == AfterHit(stored, limit, windowMs, now) && r == Answer(stored, limit, windowMs, now)
  {
    recent := Recent(stored, windowMs, now);
    if |recent| >= limit {
      var wait := windowMs - (now - recent[0]);
      return recent, LimitResult(false, if wait > 1 then wait else 1);
    }
    recent := recent + [now];
    return recent, LimitResult(true, 0);
  }

  class SlidingWindowLimiter {
    var hits: Times
    ghost var record: Record

    ghost predicate Valid()
      reads this
    {
      AllOk(hits, record)
    }

    constructor ()
      ensures Valid() && hits == map[] && record == Record(map[], map[], 0)
    {
      hits, record := map[], Record(map[], map[], 0);
    }

    /** Every attempt is judged on the full history, and the wait told is the least that helps. */
    method Hit(key: Key, limit: nat, windowMs: int, now: int) returns (r: LimitResult)
      requires Valid() && limit >= 1 && now >= record.clock
      requires key in record.rules ==> record.rules[key] == Rule(limit, windowMs)
      modifies this
      ensures Valid() && record == Noted(old(record), key, Rule(limit, windowMs), now)
      ensures Answers(r, At(old(record).attempts, key), Rule(limit, windowMs), now)
      ensures hits == Pruned(old(hits), key, limit, windowMs, now)
    {
      ghost var rule := Rule(limit, windowMs);
      HitKeepsAll(hits, record, key, rule, now);
      AnswerIsRight(At(hits, key), At(record.attempts, key), rule, record.clock, now);
      hide AllOk, KeyOk, Recent, Answers, Answer, AfterHit, Noted, At;
      var recent;
      recent, r := Judge(At(hits, key), limit, windowMs, now);
      hits := hits[key := recent];
      record := Noted(record, key, rule, now);
    }

    /** Forgetting the keys with nothing inside the window changes no later answer: the attempts judged are the same. */
    method Sweep(now: int, windowMs: int)
      requires Valid() && now >= record.clock && forall key :: key in record.rules ==> record.rules[key].window <= windowMs
      modifies this
      ensures Valid() && record == old(record).(clock := now)
      ensures forall key :: key in hits <==> key in old(hits) && !Expired(old(hits)[key], windowMs, now)
      ensures forall key :: key in hits ==> hits[key] == old(hits)[key]
    {
      ghost var before := hits;
      var keys := hits.Keys;
      while keys != {}
        invariant record == old(record)
        invariant forall key :: key in keys ==> key in hits
        invariant forall key :: key in hits <==> key in before && (key in keys || !Expired(before[key], windowMs, now))
        invariant forall key :: key in hits ==> hits[key] == before[key]
        decreases |keys|
      {
        var key := Pick(keys);
        keys := keys - {key};
        if Expired(hits[key], windowMs, now) { hits := hits - {key}; }
      }
      hide AllOk, Expired;
      SweepKeepsAll(before, record, hits, windowMs, now);
      record := record.(clock := now);
    }
  }

  // ----- the registration limits ---------------------------------------------------------------

  const WINDOW_MS := 3_600_000
  const EMAILS_PER_HOUR: nat := 3
  const SWEEP_EVERY := 200

  function IpKey(bucket: string, ip: string): Key { Key("ip:" + bucket + ":" + ip) }
  function MailKey(mail: string): Key { Key("mail:" + mail) }

  lemma {:induction false} ColonSplits(a: string, b: string, c: string, d: string)
    requires ':' !in a && ':' !in c && a + ":" + b == c + ":" + d
    ensures a == c && b == d
  {
    var t := a + ":" + b;
    assert t[|a|] == ':' && t[|c|] == ':';
    assert forall i :: 0 <= i < |a| ==> t[i] == a[i];
    assert forall i :: 0 <= i < |c| ==> t[i] == c[i];
    assert |a| == |c|;
    assert t[..|a|] == a && t[..|c|] == c;
    assert t[|a| + 1..] == b && t[|c| + 1..] == d;
  }

  /** Different addresses, routes and purposes never share a counter, colons in an address or not. */
  lemma CountersAreSeparate(bucket: string, ip: string, bucket': string, ip': string, mail: string, mail': string)
    requires ':' !in bucket && ':' !in bucket'
    ensures IpKey(bucket, ip) == IpKey(bucket', ip') <==> bucket == bucket' && ip == ip'
    ensures MailKey(mail) == MailKey(mail') <==> mail == mail'
    ensures IpKey(bucket, ip) != MailKey(mail)
  {
    assert IpKey(bucket, ip).text[3..] == bucket + ":" + ip && IpKey(bucket', ip').text[3..] == bucket' + ":" + ip';
    if IpKey(bucket, ip) == IpKey(bucket', ip') { ColonSplits(bucket, ip, bucket', ip'); }
    assert MailKey(mail).text[5..] == mail && MailKey(mail').text[5..] == mail';
    assert IpKey(bucket, ip).text[0] == 'i' && MailKey(mail).text[0] == 'm';
  }

  /** One window for all, and one limit for every mail address. */
  ghost predicate RulesFit(rules: map<Key, Rule>) {
    && (forall key :: key in rules ==> rules[key].window == WINDOW_MS)
    && (forall mail :: MailKey(mail) in rules ==> rules[MailKey(mail)].limit == EMAILS_PER_HOUR)
  }

  lemma IpFits(rules: map<Key, Rule>, bucket: string, ip: string, limit: nat)
    requires RulesFit(rules)
    ensures RulesFit(rules[IpKey(bucket, ip) := Rule(limit, WINDOW_MS)])
  {
    forall mail ensures MailKey(mail) != IpKey(bucket, ip) { assert MailKey(mail).text[0] != IpKey(bucket, ip).text[0]; }
  }

  class RegistrationLimits {
    const limiter: SlidingWindowLimiter
    var hits: nat

    ghost predicate Valid()
      reads this, limiter
    {
      limiter.Valid() && RulesFit(limiter.record.rules)
    }

    constructor ()
      ensures Valid() && fresh(limiter)
    {
      limiter := new SlidingWindowLimiter();
      hits := 0;
    }

    method SweepSometimes(now: int)
      requires Valid() && now >= limiter.record.clock
      modifies this, limiter
      ensures Valid() && hits == old(hits) + 1 && limiter.record.clock <= now
      ensures limiter.record == old(limiter.record).(clock := limiter.record.clock)
    {
      hits := hits + 1;
      if hits % SWEEP_EVERY == 0 { limiter.Sweep(now, WINDOW_MS); }
    }

    /** One bucket and address is always hit with one limit; sweeping now and then changes nothing. */
    method HitIp(bucket: string, ip: string, limit: nat, now: int) returns (r: LimitResult)
      requires Valid() && limit >= 1 && now >= limiter.record.clock
      requires IpKey(bucket, ip) in limiter.record.rules ==> limiter.record.rules[IpKey(bucket, ip)].limit == limit
      modifies this, limiter
      ensures Valid() && limiter.record == Noted(old(limiter.record), IpKey(bucket, ip), Rule(limit, WINDOW_MS), now)
      ensures Answers(r, At(old(limiter.record).attempts, IpKey(bucket, ip)), Rule(limit, 3_600_000), now)
    {
      SweepSometimes(now);
      var key := IpKey(bucket, ip);
      IpFits(limiter.record.rules, bucket, ip, limit);
      r := limiter.Hit(key, limit, WINDOW_MS, now);
    }

    method AllowVerificationEmail(mail: string, now: int) returns (allowed: bool)
      requires Valid() && now >= limiter.record.clock
      modifies this, limiter
      ensures Valid() && limiter.record == Noted(old(limiter.record), MailKey(mail), Rule(EMAILS_PER_HOUR, WINDOW_MS), now)
      ensures allowed <==> |Within(Accepted(At(old(limiter.record).attempts, MailKey(mail)), 3, 3_600_000), 3_600_000, now)| < 3
    {
      SweepSometimes(now);
      var r := limiter.Hit(MailKey(mail), EMAILS_PER_HOUR, WINDOW_MS, now);
      allowed := r.allowed;
    }
  }

  /** The Retry-After header, in whole seconds. */
  function RetryAfterSeconds(retryAfterMs: int): int {
    var seconds := if retryAfterMs % 1000 == 0 then retryAfterMs / 1000 else retryAfterMs / 1000 + 1;
    if seconds > 1 then seconds else 1
  }

  /** The header is the least number of whole seconds that covers the wait. */
  lemma HeaderCoversTheWait(retryAfterMs: int, seconds: int)
    requires retryAfterMs >= 1
    ensures seconds * 1000 >= retryAfterMs <==> seconds >= RetryAfterSeconds(retryAfterMs)
  {
  }
}
