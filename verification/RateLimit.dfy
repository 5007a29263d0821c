/**
  The sliding-window limiter: the script's trimmed sorted set against the full
  log of admissions. Times are milliseconds.
*/
module RateLimit {
  import opened Prelude

  // ---------- The reference: the full admission log ----------

  /** Log entries strictly after lo, in order. */
  function Above(log: seq<int>, lo: int): seq<int> {
    if log == [] then []
    else if Last(log) > lo then Above(Front(log), lo) + [Last(log)]
    else Above(Front(log), lo)
  }

  predicate Sorted(log: seq<int>) {
    forall i, j :: 0 <= i < j < |log| ==> log[i] <= log[j]
  }

  /** Admissions that still count at time now. */
  function Live(log: seq<int>, now: int, window: int): nat {
    |Above(log, now - window)|
  }

  /** The log after a call at time now. */
  function Admit(log: seq<int>, now: int, window: int, limit: int): seq<int> {
    if Live(log, now, window) < limit then log + [now] else log
  }

  /** Milliseconds until the oldest live admission stops counting. */
  function RetryMs(log: seq<int>, now: int, window: int): int
    requires Above(log, now - window) != []
  {
    Above(log, now - window)[0] + window - now
  }

  lemma AboveSnoc(log: seq<int>, t: int, lo: int)
    ensures Above(log + [t], lo) == if t > lo then Above(log, lo) + [t] else Above(log, lo)
  {
    assert Front(log + [t]) == log;
  }

  lemma {:induction false} AboveEntries(log: seq<int>, lo: int)
    ensures forall i :: 0 <= i < |Above(log, lo)| ==> Above(log, lo)[i] > lo && Above(log, lo)[i] in log
    ensures Sorted(log) ==> Sorted(Above(log, lo))
    ensures |Above(log, lo)| <= |log|
  {
    if log != [] {
      AboveEntries(Front(log), lo);
    }
  }

  lemma {:induction false} AboveNarrows(log: seq<int>, lo: int, hi: int)
    requires lo <= hi
    ensures Above(Above(log, lo), hi) == Above(log, hi)
    ensures |Above(log, hi)| <= |Above(log, lo)|
  {
    if log != [] {
      AboveNarrows(Front(log), lo, hi);
      if Last(log) > lo {
        AboveSnoc(Above(Front(log), lo), Last(log), hi);
      }
    }
  }

  lemma {:induction false} AllAbove(log: seq<int>, lo: int)
    requires forall i :: 0 <= i < |log| ==> log[i] > lo
    ensures Above(log, lo) == log
  {
    if log != [] {
      AllAbove(Front(log), lo);
      FrontLast(log);
    }
  }

  // ---------- The script's sorted set ----------

  /** Member ids only matter through equality. */
  datatype Member = Member(score: int, id: nat)

  function Scores(z: seq<Member>): seq<int> {
    seq(|z|, i requires 0 <= i < |z| => z[i].score)
  }

  /** ZREMRANGEBYSCORE 0 max. */
  function Trim(z: seq<Member>, max: int): seq<Member> {
    if z == [] then []
    else if 0 <= Last(z).score <= max then Trim(Front(z), max)
    else Trim(Front(z), max) + [Last(z)]
  }

  predicate Absent(z: seq<Member>, id: nat) {
    forall i :: 0 <= i < |z| ==> z[i].id != id
  }

  function Without(z: seq<Member>, id: nat): seq<Member> {
    if z == [] then []
    else if Last(z).id == id then Without(Front(z), id)
    else Without(Front(z), id) + [Last(z)]
  }

  /** Insert behind every member with a score no greater; the order of equal scores is never observed. */
  function Insert(z: seq<Member>, m: Member): seq<Member> {
    if z == [] || Last(z).score <= m.score then z + [m] else Insert(Front(z), m) + [Last(z)]
  }

  /** ZADD: an id already present is moved, not added. */
  function ZAdd(z: seq<Member>, score: int, id: nat): seq<Member> {
    Insert(Without(z, id), Member(score, id))
  }

  // ---------- What the set should be, from the log of admissions ----------

  /** The last admission of each member: admitting a member again moves it. */
  function Standing(log: seq<Member>): seq<Member> {
    if log == [] then [] else Without(Standing(Front(log)), Last(log).id) + [Last(log)]
  }

  /** Members with a score above lo. */
  function After(z: seq<Member>, lo: int): seq<Member> {
    if z == [] then []
    else if Last(z).score > lo then After(Front(z), lo) + [Last(z)]
    else After(Front(z), lo)
  }

  /** All scores lie between 0 and hi. */
  predicate Upto(z: seq<Member>, hi: int) {
    z != [] ==> 0 <= Last(z).score <= hi && Upto(Front(z), hi)
  }

  lemma {:induction false} UptoLater(z: seq<Member>, hi: int, later: int)
    requires Upto(z, hi) && hi <= later
    ensures Upto(z, later)
  {
    if z != [] {
      UptoLater(Front(z), hi, later);
    }
  }

  lemma UptoSnoc(z: seq<Member>, m: Member, hi: int)
    ensures Upto(z + [m], hi) <==> Upto(z, hi) && 0 <= m.score <= hi
  {
    assert Front(z + [m]) == z;
  }

  lemma AfterSnoc(z: seq<Member>, m: Member, lo: int)
    ensures After(z + [m], lo) == if m.score > lo then After(z, lo) + [m] else After(z, lo)
  {
    assert Front(z + [m]) == z;
  }

  lemma WithoutSnoc(z: seq<Member>, m: Member, id: nat)
    ensures Without(z + [m], id) == if m.id == id then Without(z, id) else Without(z, id) + [m]
  {
    assert Front(z + [m]) == z;
  }

  lemma {:induction false} WithoutUpto(z: seq<Member>, id: nat, hi: int)
    requires Upto(z, hi)
    ensures Upto(Without(z, id), hi)
  {
    if z != [] {
      WithoutUpto(Front(z), id, hi);
      UptoSnoc(Without(Front(z), id), Last(z), hi);
    }
  }

  lemma {:induction false} StandingUpto(log: seq<Member>, hi: int)
    requires Upto(log, hi)
    ensures Upto(Standing(log), hi)
  {
    if log != [] {
      StandingUpto(Front(log), hi);
      WithoutUpto(Standing(Front(log)), Last(log).id, hi);
      UptoSnoc(Without(Standing(Front(log)), Last(log).id), Last(log), hi);
    }
  }

  lemma {:induction false} AfterUpto(z: seq<Member>, lo: int, hi: int)
    requires Upto(z, hi)
    ensures Upto(After(z, lo), hi)
    ensures hi <= lo ==> After(z, lo) == []
  {
    if z != [] {
      AfterUpto(Front(z), lo, hi);
      UptoSnoc(After(Front(z), lo), Last(z), hi);
    }
  }

  lemma {:induction false} AfterNarrows(z: seq<Member>, lo: int, hi: int)
    requires lo <= hi
    ensures After(After(z, lo), hi) == After(z, hi)
  {
    if z != [] {
      AfterNarrows(Front(z), lo, hi);
      AfterSnoc(After(Front(z), lo), Last(z), hi);
    }
  }

  lemma {:induction false} AfterWithout(z: seq<Member>, lo: int, id: nat)
    ensures After(Without(z, id), lo) == Without(After(z, lo), id)
  {
    if z != [] {
      AfterWithout(Front(z), lo, id);
      AfterSnoc(Without(Front(z), id), Last(z), lo);
      WithoutSnoc(After(Front(z), lo), Last(z), id);
    }
  }

  lemma {:induction false} TrimIsAfter(z: seq<Member>, max: int, hi: int)
    requires Upto(z, hi)
    ensures Trim(z, max) == After(z, max)
  {
    if z != [] {
      TrimIsAfter(Front(z), max, hi);
    }
  }

  lemma ScoresSnoc(z: seq<Member>, m: Member)
    ensures Scores(z + [m]) == Scores(z) + [m.score]
  {
  }

  lemma {:induction false} ScoresAfter(z: seq<Member>, lo: int)
    ensures Scores(After(z, lo)) == Above(Scores(z), lo)
  {
    if z != [] {
      ScoresAfter(Front(z), lo);
      FrontLast(z);
      ScoresSnoc(Front(z), Last(z));
      AboveSnoc(Scores(Front(z)), Last(z).score, lo);
      ScoresSnoc(After(Front(z), lo), Last(z));
    }
  }

  lemma WithoutLast(z: seq<Member>, id: nat)
    requires z != [] && Last(z).id != id && Without(Front(z), id) == Front(z)
    ensures Without(z, id) == z
  {
    assert Without(z, id) == Without(Front(z), id) + [Last(z)];
  }

  lemma {:induction false} WithoutAbsent(z: seq<Member>, id: nat)
    requires Absent(z, id)
    ensures Without(z, id) == z
  {
    if z != [] {
      WithoutAbsent(Front(z), id);
      WithoutLast(z, id);
    }
  }

  lemma {:induction false} WithoutShorter(z: seq<Member>, id: nat)
    ensures |Without(z, id)| <= |z|
    ensures !Absent(z, id) ==> |Without(z, id)| < |z|
  {
    if z != [] {
      WithoutShorter(Front(z), id);
      if !Absent(z, id) && Last(z).id != id {
        var i: nat :| i < |z| && z[i].id == id;
        assert Front(z)[i].id == id;
      }
    }
  }

  /** ZADD at a time no score exceeds: the member moves to the end. */
  lemma ZAddMoves(z: seq<Member>, now: int, id: nat)
    requires Upto(z, now)
    ensures ZAdd(z, now, id) == Without(z, id) + [Member(now, id)]
  {
    WithoutUpto(z, id, now);
  }

  /**
    The trimmed set and its expiry agree with the log at the time of the last
    call: the set holds the last admission of each member that still counts.
  */
  ghost predicate Agrees(window: int, z: seq<Member>, expireAt: int, log: seq<Member>, clock: int) {
    && window > 0
    && Upto(log, clock)
    && z == After(Standing(log), clock - window)
    && (log != [] ==> Upto(log, Last(log).score))
    && (z != [] ==> log != [] && expireAt == Last(log).score + window)
  }

  lemma TrimNarrows(standing: seq<Member>, lo: int, hi: int, top: int)
    requires Upto(standing, top) && lo <= hi
    ensures Trim(After(standing, lo), hi) == After(standing, hi)
  {
    AfterUpto(standing, lo, top);
    TrimIsAfter(After(standing, lo), hi, top);
    AfterNarrows(standing, lo, hi);
  }

  lemma ExpiredEmpty(log: seq<Member>, lo: int)
    requires log != [] ==> Upto(log, Last(log).score) && Last(log).score <= lo
    ensures After(Standing(log), lo) == []
  {
    if log != [] {
      StandingUpto(log, Last(log).score);
      AfterUpto(Standing(log), lo, Last(log).score);
    }
  }

  lemma TrimIsStanding(z: seq<Member>, standing: seq<Member>, log: seq<Member>, clock: int, lo: int, hi: int)
    requires Upto(log, clock) && standing == Standing(log) && z == After(standing, lo) && lo <= hi
    ensures Trim(z, hi) == After(standing, hi)
  {
    StandingUpto(log, clock);
    TrimNarrows(standing, lo, hi, clock);
  }

  lemma TrimAgrees(window: int, z: seq<Member>, expireAt: int, log: seq<Member>, clock: int, now: int)
    requires Agrees(window, z, expireAt, log, clock) && clock <= now
    ensures Trim(z, now - window) == After(Standing(log), now - window)
    ensures Agrees(window, Trim(z, now - window), expireAt, log, now)
  {
    TrimIsStanding(z, Standing(log), log, clock, clock - window, now - window);
    UptoLater(log, clock, now);
    TrimNothing(z, now - window);
  }

  lemma ExpiryAgrees(window: int, z: seq<Member>, expireAt: int, log: seq<Member>, clock: int, now: int)
    requires Agrees(window, z, expireAt, log, clock) && z != [] && now >= expireAt
    ensures After(Standing(log), now - window) == []
  {
    ExpiredEmpty(log, now - window);
  }

  lemma TrimNothing(z: seq<Member>, max: int)
    ensures z == [] ==> Trim(z, max) == []
  {
  }

  lemma StandingSnoc(log: seq<Member>, m: Member)
    ensures Standing(log + [m]) == Without(Standing(log), m.id) + [m]
  {
    assert Front(log + [m]) == log;
  }

  lemma AfterMoved(standing: seq<Member>, m: Member, lo: int)
    requires m.score > lo
    ensures After(Without(standing, m.id) + [m], lo) == Without(After(standing, lo), m.id) + [m]
  {
    AfterWithout(standing, lo, m.id);
    AfterSnoc(Without(standing, m.id), m, lo);
  }

  lemma AddKeepsSet(window: int, z: seq<Member>, log: seq<Member>, now: int, id: nat)
    requires window > 0 && z == After(Standing(log), now - window)
    ensures Without(z, id) + [Member(now, id)] == After(Standing(log + [Member(now, id)]), now - window)
  {
    StandingSnoc(log, Member(now, id));
    AfterMoved(Standing(log), Member(now, id), now - window);
  }

  lemma AddAgrees(window: int, z: seq<Member>, expireAt: int, log: seq<Member>, now: int, id: nat)
    requires Agrees(window, z, expireAt, log, now) && now >= 0
    ensures ZAdd(z, now, id) == Without(z, id) + [Member(now, id)]
    ensures Agrees(window, ZAdd(z, now, id), now + window, log + [Member(now, id)], now)
  {
    StandingUpto(log, now);
    AfterUpto(Standing(log), now - window, now);
    ZAddMoves(z, now, id);
    UptoSnoc(log, Member(now, id), now);
    AddKeepsSet(window, z, log, now, id);
  }

  // ---------- Members that are not repeated ----------

  /** No member was admitted again while it still counted: the set shows every admission. */
  ghost predicate AllStand(log: seq<Member>, lo: int) {
    After(Standing(log), lo) == After(log, lo)
  }

  lemma AllStandLater(log: seq<Member>, lo: int, hi: int)
    requires AllStand(log, lo) && lo <= hi
    ensures AllStand(log, hi)
  {
    AfterNarrows(Standing(log), lo, hi);
    AfterNarrows(log, lo, hi);
  }

  lemma {:induction false} AbsentAfter(z: seq<Member>, lo: int, hi: int, id: nat)
    requires Absent(After(z, lo), id) && lo <= hi
    ensures Absent(After(z, hi), id)
  {
    if z != [] {
      if Last(z).score > lo {
        assert After(z, lo)[|After(Front(z), lo)|] == Last(z);
        assert forall i :: 0 <= i < |After(Front(z), lo)| ==> After(z, lo)[i] == After(Front(z), lo)[i];
      }
      AbsentAfter(Front(z), lo, hi, id);
    }
  }

  lemma AllStandSnoc(log: seq<Member>, m: Member, lo: int)
    requires AllStand(log, lo) && Absent(After(log, lo), m.id)
    ensures AllStand(log + [m], lo)
  {
    assert Front(log + [m]) == log;
    AfterWithout(Standing(log), lo, m.id);
    WithoutAbsent(After(log, lo), m.id);
    AfterSnoc(Without(Standing(log), m.id), m, lo);
    AfterSnoc(log, m, lo);
  }

  datatype Verdict = Verdict(allowed: bool, count: int, retryMs: int)

  /** The verdict on the admissions that stand. */
  ghost predicate AsStandingSays(log: seq<Member>, now: int, window: int, limit: int, v: Verdict) {
    var standing := Scores(Standing(log));
    && v.allowed == (Live(standing, now, window) < limit)
    && v.count == Live(standing, now, window) + (if v.allowed then 1 else 0)
    && if v.allowed then v.retryMs == 0
       else Above(standing, now - window) != [] && v.retryMs == RetryMs(standing, now, window) >= 1
  }

  /** The verdict on the full log, which it extends by an admission. */
  ghost predicate AsFullLogSays(log: seq<Member>, log': seq<Member>, now: int, window: int, limit: int, v: Verdict) {
    && AllStand(log', now - window)
    && Scores(log') == Admit(Scores(log), now, window, limit)
    && v.allowed == (Live(Scores(log), now, window) < limit)
    && v.count == Live(Scores(log'), now, window)
    && if v.allowed then v.retryMs == 0
       else Above(Scores(log), now - window) != [] && v.retryMs == RetryMs(Scores(log), now, window) >= 1
  }

  lemma DeniedSays(log: seq<Member>, z: seq<Member>, now: int, window: int, limit: int)
    requires z == After(Standing(log), now - window) && 0 < limit <= |z|
    ensures AsStandingSays(log, now, window, limit, Verdict(false, |z|, Max(1, z[0].score + window - now)))
  {
    var standing := Scores(Standing(log));
    ScoresAfter(Standing(log), now - window);
    AboveEntries(standing, now - window);
    assert z[0].score == Scores(z)[0] && |Scores(z)| == |z|;
  }

  lemma AllowedSays(log: seq<Member>, now: int, window: int, limit: int, member: nat)
    requires |After(Standing(log), now - window)| < limit
    ensures var live := After(Standing(log), now - window);
            && AsStandingSays(log, now, window, limit, Verdict(true, |live| + 1, 0))
            && (Absent(live, member) <==> |Without(live, member)| == |live|)
  {
    ScoresAfter(Standing(log), now - window);
    Counted(log, now, window, member);
  }

  lemma FullLogAnswer(log: seq<Member>, lo: int, now: int, window: int, limit: int, member: nat, v: Verdict)
    requires AllStand(log, lo) && Absent(After(Standing(log), lo), member) && lo <= now - window && window > 0
    requires AsStandingSays(log, now, window, limit, v)
    ensures AsFullLogSays(log, if v.allowed then log + [Member(now, member)] else log, now, window, limit, v)
  {
    StandsAt(log, lo, now, window, member);
  }

  /** One bucket: the Redis key with its expiry, and the log of every admission it ever made. */
  class Bucket {
    const window: int
    var zset: seq<Member>
    var expireAt: int
    ghost var log: seq<Member>
    ghost var clock: int

    ghost predicate Valid()
      reads this
    {
      Agrees(window, zset, expireAt, log, clock)
    }

    constructor (window: int)
      requires window > 0
      ensures Valid() && this.window == window && log == [] && clock == 0 && AllStand(log, -window)
    {
      this.window := window;
      zset, expireAt, log, clock := [], 0, [], 0;
    }

    /**
      `SLIDING_WINDOW_LUA` behind `RateLimiter.check`, for any member and a clock
      that does not run backwards; None is the ValueError for a limit that is not
      positive. Decision, count and hint are those of the admissions that stand,
      although the key keeps only a trimmed set and may have expired in between.
      A member that still counts and is admitted again is moved, so the set does
      not grow and one admission is forgotten. As long as that never happens,
      everything is as the full log says.
    */
    method Check(now: int, limit: int, member: nat) returns (r: Option<Verdict>)
      requires Valid() && now >= clock && now >= 0
      modifies this
      ensures Valid()
      ensures r.None? <==> limit <= 0
      ensures r.None? ==> log == old(log) && zset == old(zset) && clock == old(clock)
      ensures r.Some? ==>
                && clock == now && AsStandingSays(old(log), now, window, limit, r.value)
                && log == if r.value.allowed then old(log) + [Member(now, member)] else old(log)
      ensures r.Some? && r.value.allowed ==>
                var live := After(Standing(old(log)), now - window);
                |zset| == |Without(live, member)| + 1 && (|zset| == r.value.count <==> Absent(live, member))
      ensures r.Some? && AllStand(old(log), old(clock) - window) && Absent(old(zset), member) ==>
                AsFullLogSays(old(log), log, now, window, limit, r.value)
    {
      if limit <= 0 {
        return None;
      }
      ghost var before, start, was := log, clock, zset;
      TrimKey(now);
      var v := Decide(now, limit, member);
      if AllStand(before, start - window) && Absent(was, member) {
        FullLogAnswer(before, start - window, now, window, limit, member, v);
      }
      r := Some(v);
    }

    /** The rest of the script, on the trimmed set. */
    method Decide(now: int, limit: int, member: nat) returns (v: Verdict)
      requires Valid() && now == clock && now >= 0 && limit > 0
      modifies `zset, `expireAt, `log
      ensures Valid() && AsStandingSays(old(log), now, window, limit, v)
      ensures log == if v.allowed then old(log) + [Member(now, member)] else old(log)
      ensures v.allowed ==>
                var live := After(Standing(old(log)), now - window);
                |zset| == |Without(live, member)| + 1 && (|zset| == v.count <==> Absent(live, member))
    {
      var count := |zset|;
      if count >= limit {
        var oldest := zset[0].score;
        DeniedSays(log, zset, now, window, limit);
        return Verdict(false, count, Max(1, oldest + window - now));
      }
      AllowedSays(log, now, window, limit, member);
      AddMember(now, member);
      v := Verdict(true, count + 1, 0);
    }

    /** Key expiry and trimming: the set is left with exactly the standing admissions that count. */
    method TrimKey(now: int)
      requires Valid() && now >= clock && now >= 0
      modifies `zset, `clock
      ensures Valid() && clock == now && zset == After(Standing(log), now - window)
    {
      TrimAgrees(window, zset, expireAt, log, clock, now);
      if zset != [] && now >= expireAt {
        ExpiryAgrees(window, zset, expireAt, log, clock, now);
        zset := [];
      }
      zset := Trim(zset, now - window);
      clock := now;
    }

    method AddMember(now: int, member: nat)
      requires Valid() && now == clock && now >= 0
      modifies `zset, `expireAt, `log
      ensures Valid() && log == old(log) + [Member(now, member)] && zset == Without(old(zset), member) + [Member(now, member)]
    {
      AddAgrees(window, zset, expireAt, log, now, member);
      zset := ZAdd(zset, now, member);
      expireAt := now + window;
      log := log + [Member(now, member)];
    }
  }

  /** When everything stands, the set shows the full log's live part, and an unrepeated member keeps it so. */
  lemma StandsAt(log: seq<Member>, lo: int, now: int, window: int, member: nat)
    requires AllStand(log, lo) && Absent(After(Standing(log), lo), member) && lo <= now - window && window > 0
    ensures AllStand(log, now - window) && AllStand(log + [Member(now, member)], now - window)
    ensures Above(Scores(Standing(log)), now - window) == Above(Scores(log), now - window)
    ensures Scores(log + [Member(now, member)]) == Scores(log) + [now]
    ensures Live(Scores(log + [Member(now, member)]), now, window) == Live(Scores(log), now, window) + 1
  {
    AllStandLater(log, lo, now - window);
    AbsentAfter(Standing(log), lo, now - window, member);
    AllStandSnoc(log, Member(now, member), now - window);
    ScoresAfter(Standing(log), now - window);
    ScoresAfter(log, now - window);
    ScoresSnoc(log, Member(now, member));
    AboveSnoc(Scores(log), now, now - window);
  }

  /** A repeated member does not make the set grow. */
  lemma Counted(log: seq<Member>, now: int, window: int, member: nat)
    ensures var live := After(Standing(log), now - window);
            Absent(live, member) <==> |Without(live, member)| == |live|
  {
    var live := After(Standing(log), now - window);
    WithoutShorter(live, member);
    if Absent(live, member) {
      WithoutAbsent(live, member);
    }
  }

  // ---------- What the log guarantees ----------

  /** All admissions of a run of calls under one limit. */
  function Admissions(calls: seq<int>, window: int, limit: int): seq<int> {
    if calls == [] then [] else Admit(Admissions(Front(calls), window, limit), Last(calls), window, limit)
  }

  /** Admissions in the half-open window that ends at time t. */
  function InWindow(log: seq<int>, t: int, window: int): nat {
    if log == [] then 0 else InWindow(Front(log), t, window) + if t - window < Last(log) <= t then 1 else 0
  }

  lemma {:induction false} InWindowAtMostLive(log: seq<int>, t: int, now: int, window: int)
    requires now <= t
    ensures InWindow(log, t, window) <= Live(log, now, window)
  {
    if log != [] {
      InWindowAtMostLive(Front(log), t, now, window);
    }
  }

  lemma {:induction false} AdmissionsSorted(calls: seq<int>, window: int, limit: int)
    requires Sorted(calls)
    ensures Sorted(Admissions(calls, window, limit))
    ensures forall i :: 0 <= i < |Admissions(calls, window, limit)| ==>
              calls != [] && Admissions(calls, window, limit)[i] <= Last(calls)
  {
    if calls != [] {
      AdmissionsSorted(Front(calls), window, limit);
    }
  }

  /** In every run with a non-decreasing clock, every window of the given length holds at most `limit` admissions. */
  lemma {:induction false} WindowBound(calls: seq<int>, window: int, limit: int, t: int)
    requires Sorted(calls) && window > 0 && limit > 0
    ensures InWindow(Admissions(calls, window, limit), t, window) <= limit
  {
    if calls != [] {
      var before, now := Admissions(Front(calls), window, limit), Last(calls);
      WindowBound(Front(calls), window, limit, t);
      if Live(before, now, window) < limit {
        assert Front(before + [now]) == before;
        if now <= t {
          InWindowAtMostLive(before, t, now, window);
        }
      }
    }
  }

  lemma {:induction false} LiveIsWindow(log: seq<int>, now: int, window: int)
    requires forall i :: 0 <= i < |log| ==> log[i] <= now
    ensures Live(log, now, window) == InWindow(log, now, window)
  {
    if log != [] {
      LiveIsWindow(Front(log), now, window);
    }
  }

  lemma SortedFront(calls: seq<int>, now: int)
    requires Sorted(calls + [now])
    ensures Sorted(calls) && (calls != [] ==> Last(calls) <= now)
  {
    var all := calls + [now];
    assert forall i :: 0 <= i < |calls| ==> all[i] == calls[i];
    assert calls != [] ==> all[|calls| - 1] <= all[|calls|];
  }

  lemma AdmissionsBefore(calls: seq<int>, window: int, limit: int, now: int)
    requires Sorted(calls + [now])
    ensures Sorted(calls) && Sorted(Admissions(calls, window, limit))
    ensures forall i :: 0 <= i < |Admissions(calls, window, limit)| ==> Admissions(calls, window, limit)[i] <= now
  {
    SortedFront(calls, now);
    AdmissionsSorted(calls, window, limit);
  }

  /** Under a fixed limit a call is denied only when the window holds exactly `limit` admissions. */
  lemma FullWindow(calls: seq<int>, window: int, limit: int, now: int)
    requires Sorted(calls) && window > 0 && limit > 0
    requires forall i :: 0 <= i < |Admissions(calls, window, limit)| ==> Admissions(calls, window, limit)[i] <= now
    ensures Live(Admissions(calls, window, limit), now, window) <= limit
  {
    WindowBound(calls, window, limit, now);
    LiveIsWindow(Admissions(calls, window, limit), now, window);
  }

  predicate OldestFirst(live: seq<int>) {
    forall i :: 0 <= i < |live| ==> live[0] <= live[i]
  }

  /**
    The retry hint is exact: if a call at `now` is denied, then without further
    calls every earlier time than now + retry is denied as well, and from that
    time on a call is admitted.
  */
  lemma RetryHintExact(calls: seq<int>, window: int, limit: int, now: int, t: int)
    requires Sorted(calls + [now]) && window > 0 && limit > 0 && now <= t
    requires Live(Admissions(calls, window, limit), now, window) >= limit
    ensures Above(Admissions(calls, window, limit), now - window) != []
    ensures var log := Admissions(calls, window, limit);
            Live(log, t, window) < limit <==> t >= now + RetryMs(log, now, window)
  {
    DeniedIsFull(calls, window, limit, now);
    HintForLog(Admissions(calls, window, limit), window, limit, now, t);
  }

  lemma DeniedIsFull(calls: seq<int>, window: int, limit: int, now: int)
    requires Sorted(calls + [now]) && window > 0 && limit > 0
    requires Live(Admissions(calls, window, limit), now, window) >= limit
    ensures Live(Admissions(calls, window, limit), now, window) == limit
    ensures OldestFirst(Above(Admissions(calls, window, limit), now - window))
  {
    AdmissionsBefore(calls, window, limit, now);
    FullWindow(calls, window, limit, now);
    AboveSorted(Admissions(calls, window, limit), now - window);
  }

  lemma HintForLog(log: seq<int>, window: int, limit: int, now: int, t: int)
    requires limit > 0 && now <= t && Live(log, now, window) == limit && OldestFirst(Above(log, now - window))
    ensures Above(log, now - window) != []
    ensures Live(log, t, window) < limit <==> t >= now + RetryMs(log, now, window)
  {
    FirstLiveDecides(Above(log, now - window), t - window);
    HintOnLog(log, window, limit, now, t);
  }

  lemma HintOnLog(log: seq<int>, window: int, limit: int, now: int, t: int)
    requires limit > 0 && now <= t && Live(log, now, window) == limit
    requires var live := Above(log, now - window);
             live != [] && (|Above(live, t - window)| < |live| <==> t - window >= live[0])
    ensures Live(log, t, window) < limit <==> t >= now + RetryMs(log, now, window)
  {
    AboveNarrows(log, now - window, t - window);
  }

  lemma AboveSorted(log: seq<int>, lo: int)
    requires Sorted(log)
    ensures OldestFirst(Above(log, lo))
  {
    AboveEntries(log, lo);
  }

  lemma FirstLiveDecides(live: seq<int>, lo: int)
    requires live != [] && OldestFirst(live)
    ensures |Above(live, lo)| < |live| <==> lo >= live[0]
  {
    if lo < live[0] {
      AllAbove(live, lo);
    } else {
      FirstDropped(live, lo);
    }
  }

  lemma {:induction false} FirstDropped(log: seq<int>, lo: int)
    requires log != [] && log[0] <= lo
    ensures |Above(log, lo)| < |log|
  {
    if |log| > 1 {
      FirstDropped(Front(log), lo);
    }
  }

  /** The Retry-After header of the authentication layer: the hint, rounded up to the next whole second. */
  function RetryAfterSeconds(retryMs: int): (seconds: int)
    ensures retryMs >= 0 ==> 1000 * (seconds - 1) <= retryMs < 1000 * seconds
    ensures seconds >= 1
  {
    Max(1, retryMs / 1000 + 1)
  }

  /** Waiting the advertised number of seconds always suffices. */
  lemma RetryAfterSuffices(calls: seq<int>, window: int, limit: int, now: int)
    requires Sorted(calls + [now]) && window > 0 && limit > 0
    requires Live(Admissions(calls, window, limit), now, window) >= limit
    requires Above(Admissions(calls, window, limit), now - window) != []
    ensures var log := Admissions(calls, window, limit);
            Live(log, now + 1000 * RetryAfterSeconds(RetryMs(log, now, window)), window) < limit
  {
    var log := Admissions(calls, window, limit);
    var t := now + 1000 * RetryAfterSeconds(RetryMs(log, now, window));
    AboveEntries(log, now - window);
    RetryHintExact(calls, window, limit, now, t);
  }

  // ---------- Repeated members ----------

  /** All admissions of a run of calls that choose their own members. */
  function AdmittedOf(calls: seq<Member>, window: int, limit: int): seq<Member> {
    if calls == [] then []
    else
      var log := AdmittedOf(Front(calls), window, limit);
      if Live(Scores(Standing(log)), Last(calls).score, window) < limit then log + [Last(calls)] else log
  }

  predicate Clocked(calls: seq<Member>) {
    calls != [] ==> Upto(calls, Last(calls).score) && Clocked(Front(calls))
  }

  function Repeats(m: Member, n: nat): seq<Member> {
    if n == 0 then [] else Repeats(m, n - 1) + [m]
  }

  lemma {:induction false} RepeatsUpto(m: Member, n: nat)
    requires m.score >= 0
    ensures Upto(Repeats(m, n), m.score) && Clocked(Repeats(m, n))
  {
    if n > 0 {
      RepeatsUpto(m, n - 1);
      UptoSnoc(Repeats(m, n - 1), m, m.score);
      assert Front(Repeats(m, n)) == Repeats(m, n - 1);
    }
  }

  lemma WithoutSelf(m: Member)
    ensures Without([m], m.id) == [] && Without([], m.id) == []
  {
    assert Front([m]) == [];
  }

  // One member stands for all its admissions.
  lemma {:induction false} RepeatsStand(m: Member, n: nat)
    ensures Standing(Repeats(m, n)) == if n == 0 then [] else [m]
  {
    if n > 0 {
      RepeatsStand(m, n - 1);
      StandingSnoc(Repeats(m, n - 1), m);
      WithoutSelf(m);
    }
  }

  lemma AdmittedSnoc(calls: seq<Member>, m: Member, window: int, limit: int, log: seq<Member>)
    requires log == AdmittedOf(calls, window, limit) && Live(Scores(Standing(log)), m.score, window) < limit
    ensures AdmittedOf(calls + [m], window, limit) == log + [m]
  {
    assert Front(calls + [m]) == calls;
  }

  lemma InWindowSnoc(log: seq<int>, now: int, t: int, window: int)
    ensures InWindow(log + [now], t, window) == InWindow(log, t, window) + if t - window < now <= t then 1 else 0
  {
    assert Front(log + [now]) == log;
  }

  lemma RepeatsRoom(m: Member, n: nat, window: int)
    ensures Live(Scores(Standing(Repeats(m, n))), m.score, window) <= 1
  {
    RepeatsStand(m, n);
    AtMostLength(Scores(Standing(Repeats(m, n))), m.score - window);
  }

  lemma RepeatsNext(m: Member, before: seq<Member>, n: nat, window: int, limit: int)
    requires limit >= 2 && before == Repeats(m, n) && AdmittedOf(before, window, limit) == before
    ensures AdmittedOf(before + [m], window, limit) == before + [m]
  {
    RepeatsRoom(m, n, window);
    AdmittedSnoc(before, m, window, limit, before);
  }

  lemma {:induction false} RepeatsAdmitted(m: Member, n: nat, window: int, limit: int)
    requires limit >= 2
    ensures AdmittedOf(Repeats(m, n), window, limit) == Repeats(m, n)
  {
    if n > 0 {
      RepeatsAdmitted(m, n - 1, window, limit);
      RepeatsNext(m, Repeats(m, n - 1), n - 1, window, limit);
    }
  }

  lemma {:induction false} RepeatsCount(m: Member, n: nat, window: int)
    requires window > 0
    ensures InWindow(Scores(Repeats(m, n)), m.score, window) == n
  {
    if n > 0 {
      RepeatsCount(m, n - 1, window);
      ScoresSnoc(Repeats(m, n - 1), m);
      InWindowSnoc(Scores(Repeats(m, n - 1)), m.score, m.score, window);
    }
  }

  lemma AtMostLength(log: seq<int>, lo: int)
    ensures |Above(log, lo)| <= |log|
  {
    AboveEntries(log, lo);
  }

  // With limit 1 an admission needs every earlier one to have stopped counting.
  lemma LastStands(log: seq<Member>, now: int, window: int)
    requires log != [] && Live(Scores(Standing(log)), now, window) < 1
    ensures Last(log).score <= now - window
  {
    var standing := Standing(log);
    FrontLast(standing);
    ScoresSnoc(Front(standing), Last(standing));
    AboveSnoc(Scores(Front(standing)), Last(log).score, now - window);
  }

  lemma {:induction false} NoneInWindow(log: seq<Member>, hi: int, t: int, window: int)
    requires Upto(log, hi) && hi <= t - window
    ensures InWindow(Scores(log), t, window) == 0
  {
    if log != [] {
      NoneInWindow(Front(log), hi, t, window);
      FrontLast(log);
      ScoresSnoc(Front(log), Last(log));
      assert Front(Scores(log)) == Scores(Front(log));
    }
  }

  lemma {:induction false} LimitOneHolds(calls: seq<Member>, window: int, t: int)
    requires Clocked(calls) && window > 0
    ensures InWindow(Scores(AdmittedOf(calls, window, 1)), t, window) <= 1
    ensures calls != [] ==> Upto(AdmittedOf(calls, window, 1), Last(calls).score)
    ensures var log := AdmittedOf(calls, window, 1); log != [] ==> Upto(log, Last(log).score)
  {
    if calls != [] {
      var front, m := Front(calls), Last(calls);
      var log := AdmittedOf(front, window, 1);
      LimitOneHolds(front, window, t);
      if front != [] {
        assert Front(calls) == front && Upto(front, m.score);
        UptoLater(log, Last(front).score, m.score);
      }
      if Live(Scores(Standing(log)), m.score, window) < 1 {
        UptoSnoc(log, m, m.score);
        ScoresSnoc(log, m);
        assert Front(Scores(log) + [m.score]) == Scores(log);
        if log != [] && m.score <= t {
          LastStands(log, m.score, window);
          NoneAfterOne(log, m.score, t, window);
        }
      }
    }
  }

  lemma NoneAfterOne(log: seq<Member>, now: int, t: int, window: int)
    requires log != [] && Upto(log, Last(log).score) && Last(log).score <= now - window && now <= t
    ensures InWindow(Scores(log), t, window) == 0
  {
    NoneInWindow(log, Last(log).score, t, window);
  }

  /** Nothing the calls do puts more than `limit` admissions into one window. */
  ghost predicate Bounded(window: int, limit: int) {
    forall calls, t :: Clocked(calls) ==> InWindow(Scores(AdmittedOf(calls, window, limit)), t, window) <= limit
  }

  lemma RepeatsExceed(window: int, limit: int)
    requires window > 0 && limit >= 2
    ensures !Bounded(window, limit)
  {
    var m := Member(0, 0);
    var calls := Repeats(m, limit + 1);
    RepeatsUpto(m, limit + 1);
    RepeatsAdmitted(m, limit + 1, window, limit);
    RepeatsCount(m, limit + 1, window);
    assert Clocked(calls) && InWindow(Scores(AdmittedOf(calls, window, limit)), 0, window) > limit;
  }

  /**
    Exactly when members may be repeated without harm: with limit 1 every window
    still holds at most one admission, whatever members the calls choose; with
    any larger limit a caller that repeats its member is admitted without end.
  */
  lemma RepeatsHarmlessIff(window: int, limit: int)
    requires window > 0 && limit > 0
    ensures Bounded(window, limit) <==> limit == 1
  {
    if limit == 1 {
      forall calls, t | Clocked(calls)
        ensures InWindow(Scores(AdmittedOf(calls, window, limit)), t, window) <= limit
      {
        LimitOneHolds(calls, window, t);
      }
    } else {
      RepeatsExceed(window, limit);
    }
  }
}
