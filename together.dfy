/** The provider layer: the token-count heuristic, the three per-provider
    rate limiters kept in module-level counters, the prompt cache with the
    bounded Groq retry loop, the DeepSeek commit summariser and the Gemini
    embedding call. Provider replies are inputs to the operations; the clock
    is a `Clock` object that only `delay` advances. */
module Together {
  import opened Common
  import opened Strings

  const MaxAttempts := 2
  const MaxGroqTpm := 30000
  const MaxGroqRpm := 30
  const MaxGeminiRpm := 15
  /** Every limiter counts calls per minute. */
  const RateWindowMs := 60000
  const MaxDeepseekPerWindow := 15
  /** Pause between two Groq attempts. */
  const RetryPauseMs := 2000
  /** Source text beyond this many characters is not sent for summarising. */
  const MaxCodeChars := 10000

  const NoChangesText := "No changes to summarize."
  const DeepseekHttpErrorText := "⚠️ DeepSeek API error while generating commit summary."
  const NoSummaryText := "⚠️ No summary returned."
  const CommitExceptionText := "⚠️ Error generating commit summary."
  const CodeErrorText := "⚠️ Error summarizing source code."
  const RetriesExhaustedText := "⚠️ Failed after retries."

  // ---------------------------------------------------------------------------
  // countTokens

  /** `text.replace(/[\s\n]+/g, " ").trim().split(/\s+/)`. */
  function Tokens(text: string): seq<string> {
    SplitOnBlankRuns(Trim(CollapseBlankRuns(text)))
  }

  /** `countTokens`: never zero. */
  function CountTokens(text: string): (n: nat)
    ensures n >= 1
  {
    |Tokens(text)|
  }

  /** The tokens are exactly the words of the text; blank text yields the
      single empty token. */
  lemma TokensAreWords(text: string)
    ensures Tokens(text) == if Words(text) == [] then [""] else Words(text)
  {
    var c := CollapseBlankRuns(text);
    var t := Trim(c);
    WordsCollapse(text);
    WordsTrim(c);
    if t != [] {
      SplitTrimmedIsWords(t);
      assert Words(t) == [TakeWord(t)] + Words(t[|TakeWord(t)|..]);
    }
  }

  /** `countTokens` counts the words, and answers 1 for blank text. */
  lemma CountTokensCountsWords(text: string)
    ensures CountTokens(text) == if |Words(text)| == 0 then 1 else |Words(text)|
  {
    TokensAreWords(text);
  }

  // ---------------------------------------------------------------------------
  // Clock

  /** The process clock as `Date.now()` reads it; `delay` advances it. */
  class Clock {
    var now: int

    constructor (start: int)
      ensures now == start
    {
      now := start;
    }

    /** `await delay(ms)`. */
    method Delay(ms: nat)
      modifies this
      ensures now == old(now) + ms
    {
      now := now + ms;
    }
  }

  // ---------------------------------------------------------------------------
  // The rate limiters as functions of their counters

  /** What is left of the minute that began at `last`; nothing when the
      minute is over. */
  function WindowRemainder(now: int, last: int): nat {
    if RateWindowMs - (now - last) > 0 then RateWindowMs - (now - last) else 0
  }

  /** The Groq counters: `groqTokensUsed`, `lastGroqCall`, `groqCalls`. */
  datatype GroqCounters = GroqCounters(tokensUsed: int, lastCall: int, calls: int)

  /** The Groq budget the counters keep between calls: at most 30 calls, and
      at most 30000 tokens unless a single call asked for more by itself. */
  predicate GroqWithinBudget(c: GroqCounters) {
    0 <= c.calls <= MaxGroqRpm && 0 <= c.tokensUsed
    && (c.calls <= 1 || c.tokensUsed <= MaxGroqTpm)
  }

  predicate GroqMustReset(c: GroqCounters, tokenCount: nat) {
    c.calls >= MaxGroqRpm || c.tokensUsed + tokenCount > MaxGroqTpm
  }

  /** How long `limitGroqRate(tokenCount)` waits when called at `now`. */
  function GroqWait(c: GroqCounters, tokenCount: nat, now: int): nat {
    if GroqMustReset(c, tokenCount) then WindowRemainder(now, c.lastCall) else 0
  }

  /** The counters after `limitGroqRate(tokenCount)` called at `now`. */
  function GroqStep(c: GroqCounters, tokenCount: nat, now: int): GroqCounters {
    var later := now + GroqWait(c, tokenCount, now);
    if GroqMustReset(c, tokenCount) then GroqCounters(tokenCount, later, 1)
    else GroqCounters(c.tokensUsed + tokenCount, later, c.calls + 1)
  }

  /** `limitGroqRate` keeps the budget, counts 1..30 calls, restarts the token
      count with this call's tokens after a reset, waits at most a minute, and
      never restarts a window sooner than a minute after the last call. */
  lemma GroqStepKeepsBudget(c: GroqCounters, tokenCount: nat, now: int)
    requires GroqWithinBudget(c) && c.lastCall <= now
    ensures var d := GroqStep(c, tokenCount, now);
      && GroqWithinBudget(d)
      && 1 <= d.calls <= MaxGroqRpm
      && d.tokensUsed == (if GroqMustReset(c, tokenCount) then tokenCount else c.tokensUsed + tokenCount)
      && (tokenCount <= MaxGroqTpm ==> d.tokensUsed <= MaxGroqTpm)
      && GroqWait(c, tokenCount, now) <= RateWindowMs
      && (GroqMustReset(c, tokenCount) ==> d.lastCall >= c.lastCall + RateWindowMs)
      && d.lastCall >= now
  {
  }

  /** `lastGeminiCall` and `geminiCalls`. */
  datatype GeminiCounters = GeminiCounters(lastCall: int, calls: int)

  function GeminiWait(c: GeminiCounters, now: int): nat {
    if c.calls >= MaxGeminiRpm then WindowRemainder(now, c.lastCall) else 0
  }

  /** The counters after `limitGeminiRate()` called at `now`. */
  function GeminiStep(c: GeminiCounters, now: int): GeminiCounters {
    var later := now + GeminiWait(c, now);
    if c.calls >= MaxGeminiRpm then GeminiCounters(later, 1) else GeminiCounters(later, c.calls + 1)
  }

  /** `limitGeminiRate` keeps 1..15 calls in the current minute, stamps the
      call time, and never restarts sooner than a minute after the last call. */
  lemma GeminiStepKeepsBudget(c: GeminiCounters, now: int)
    requires 0 <= c.calls <= MaxGeminiRpm && c.lastCall <= now
    ensures var d := GeminiStep(c, now);
      && 1 <= d.calls <= MaxGeminiRpm
      && d.lastCall == now + GeminiWait(c, now)
      && GeminiWait(c, now) <= RateWindowMs
      && (c.calls >= MaxGeminiRpm ==> d.lastCall >= c.lastCall + RateWindowMs)
  {
  }

  predicate Ascending(s: seq<int>) {
    forall i, j :: 0 <= i < j < |s| ==> s[i] <= s[j]
  }

  predicate AllAtMost(s: seq<int>, now: int) {
    forall i :: 0 <= i < |s| ==> s[i] <= now
  }

  /** `timestamps.filter((ts) => now - ts < 60000)`. */
  function InWindow(ts: seq<int>, now: int): (r: seq<int>)
    ensures |r| <= |ts|
    ensures forall i :: 0 <= i < |r| ==> now - r[i] < RateWindowMs && r[i] in ts
  {
    if ts == [] then []
    else (if now - ts[0] < RateWindowMs then [ts[0]] else []) + InWindow(ts[1..], now)
  }

  lemma {:induction false} InWindowConcat(a: seq<int>, b: seq<int>, now: int)
    ensures InWindow(a + b, now) == InWindow(a, now) + InWindow(b, now)
  {
    if a == [] {
      assert a + b == b;
    } else {
      assert (a + b)[1..] == a[1..] + b;
      InWindowConcat(a[1..], b, now);
    }
  }

  lemma {:induction false} InWindowAll(ts: seq<int>, now: int)
    requires forall i :: 0 <= i < |ts| ==> now - ts[i] < RateWindowMs
    ensures InWindow(ts, now) == ts
  {
    if ts != [] {
      InWindowAll(ts[1..], now);
    }
  }

  lemma {:induction false} InWindowAscending(ts: seq<int>, now: int)
    requires Ascending(ts)
    ensures Ascending(InWindow(ts, now))
  {
    if ts != [] {
      InWindowAscending(ts[1..], now);
      var r := InWindow(ts[1..], now);
      assert forall j :: 0 <= j < |r| ==> ts[0] <= r[j];
    }
  }

  /** A later reading of the clock never finds more timestamps in the window. */
  lemma {:induction false} InWindowLater(ts: seq<int>, t1: int, t2: int)
    requires t1 <= t2
    ensures |InWindow(ts, t2)| <= |InWindow(ts, t1)|
  {
    if ts != [] {
      InWindowLater(ts[1..], t1, t2);
    }
  }

  /** How long `limitDeepseekRate` waits, given the timestamps it kept. */
  function DeepseekWait(window: seq<int>, now: int): int {
    if |window| >= MaxDeepseekPerWindow then RateWindowMs - (now - window[0]) else 0
  }

  /** One `limitDeepseekRate()` call entered at `now` with the timestamps
      `ts`: the timestamps it leaves and the clock when it returns. */
  function DeepseekCall(ts: seq<int>, now: int): (after: (seq<int>, int))
    ensures after.1 >= now
    ensures after.0 == InWindow(ts, now) + [now]
  {
    var window := InWindow(ts, now);
    (window + [now], now + DeepseekWait(window, now))
  }

  /** Recording `now` after a window of earlier calls keeps the timestamps
      ascending and in the past. */
  lemma RecordCall(window: seq<int>, now: int, later: int)
    requires Ascending(window) && AllAtMost(window, now) && now <= later
    ensures Ascending(window + [now]) && AllAtMost(window + [now], later)
  {
  }

  /** After waiting out the minute of the oldest of a full window, the oldest
      call has left the window, so recording one more keeps the quota. */
  lemma {:induction false} FullWindowAfterWait(window: seq<int>, now: int)
    requires MaxDeepseekPerWindow <= |window| <= MaxDeepseekPerWindow
    ensures |InWindow(window + [now], window[0] + RateWindowMs)| <= MaxDeepseekPerWindow
  {
    var s := window + [now];
    assert s[1..] == window[1..] + [now];
    assert InWindow(s, window[0] + RateWindowMs) == InWindow(window[1..] + [now], window[0] + RateWindowMs);
  }

  /** A window that is not full stays within the quota when `now` joins it. */
  lemma NotFullWindow(window: seq<int>, now: int)
    requires |window| < MaxDeepseekPerWindow
    requires forall i :: 0 <= i < |window| ==> now - window[i] < RateWindowMs
    ensures |InWindow(window + [now], now)| <= MaxDeepseekPerWindow
  {
    InWindowAll(window + [now], now);
  }

  /** What `limitDeepseekRate` promises: it waits only when 15 calls remain in
      the last minute, then for what is left of the minute since the oldest of
      them, a wait in (0, 60000]; it records the time it was called, so the
      window grows by one; and afterwards no more than 15 recorded calls lie
      in the minute before the clock. */
  lemma DeepseekKeepsQuota(ts: seq<int>, now: int)
    requires Ascending(ts) && AllAtMost(ts, now)
    requires |InWindow(ts, now)| <= MaxDeepseekPerWindow
    ensures var window := InWindow(ts, now);
      && (|window| < MaxDeepseekPerWindow ==> DeepseekWait(window, now) == 0)
      && (|window| >= MaxDeepseekPerWindow ==> 0 < DeepseekWait(window, now) <= RateWindowMs)
    ensures var window := InWindow(ts, now);
      var later := now + DeepseekWait(window, now);
      && Ascending(window + [now])
      && AllAtMost(window + [now], later)
      && |InWindow(window + [now], later)| <= MaxDeepseekPerWindow
  {
    var window := InWindow(ts, now);
    InWindowAscending(ts, now);
    assert AllAtMost(window, now);
    if |window| < MaxDeepseekPerWindow {
      NotFullWindow(window, now);
      RecordCall(window, now, now);
    } else {
      assert window[0] in ts;
      var later := now + DeepseekWait(window, now);
      assert later == window[0] + RateWindowMs;
      FullWindowAfterWait(window, now);
      RecordCall(window, now, later);
    }
  }

  // ---------------------------------------------------------------------------
  // The DeepSeek quota over the requests actually sent

  /** `n` copies of `x`. */
  function Repeat<T>(n: nat, x: T): (r: seq<T>)
    ensures |r| == n
  {
    if n == 0 then [] else [x] + Repeat(n - 1, x)
  }

  lemma {:induction false} RepeatAt<T>(n: nat, x: T)
    ensures forall i :: 0 <= i < n ==> Repeat(n, x)[i] == x
  {
    if n > 0 {
      RepeatAt(n - 1, x);
    }
  }

  /** Calls of `limitDeepseekRate()` made one after the other: the timestamps
      it keeps, the clock, and the times at which the guarded requests leave,
      which is when each call returns. */
  datatype Limiter = Limiter(stamps: seq<int>, clock: int, sent: seq<int>)

  /** No timestamp kept, no request sent, the clock at 0. */
  const FreshLimiter := Limiter([], 0, [])

  /** One call, entered `gap` ms after the previous one returned. As written
      (`corrected` false) it records the time it was entered, which is
      earlier than the request it lets through whenever it waited; corrected,
      it records the time it returns. */
  function LimiterCall(s: Limiter, gap: nat, corrected: bool): (r: Limiter)
    ensures r.clock >= s.clock + gap
    ensures r.sent == s.sent + [r.clock]
    ensures !corrected ==> (r.stamps, r.clock) == DeepseekCall(s.stamps, s.clock + gap)
  {
    var now := s.clock + gap;
    var window := InWindow(s.stamps, now);
    var at := now + DeepseekWait(window, now);
    Limiter(window + [if corrected then at else now], at, s.sent + [at])
  }

  /** The calls made with the successive gaps `gaps`. */
  function LimiterRun(s: Limiter, gaps: seq<nat>, corrected: bool): (r: Limiter)
    ensures |r.sent| == |s.sent| + |gaps|
    ensures r.clock >= s.clock
    decreases |gaps|
  {
    if gaps == [] then s else LimiterRun(LimiterCall(s, gaps[0], corrected), gaps[1..], corrected)
  }

  /** The requests sent in the minute up to `t`: at or before `t` and less
      than 60000 ms before it. */
  function Recent(sent: seq<int>, t: int): (r: seq<int>)
    ensures |r| <= |sent|
    ensures forall i :: 0 <= i < |r| ==> r[i] <= t && t - r[i] < RateWindowMs && r[i] in sent
  {
    if sent == [] then []
    else (if sent[0] <= t && t - sent[0] < RateWindowMs then [sent[0]] else []) + Recent(sent[1..], t)
  }

  /** The limiter's announced quota: no minute holds more than 15 requests. */
  ghost predicate WithinQuota(sent: seq<int>) {
    forall t :: |Recent(sent, t)| <= MaxDeepseekPerWindow
  }

  lemma {:induction false} LimiterRunConcat(s: Limiter, a: seq<nat>, b: seq<nat>, corrected: bool)
    ensures LimiterRun(s, a + b, corrected) == LimiterRun(LimiterRun(s, a, corrected), b, corrected)
    decreases |a|
  {
    if a == [] {
      assert a + b == b;
    } else {
      assert (a + b)[1..] == a[1..] + b;
      LimiterRunConcat(LimiterCall(s, a[0], corrected), a[1..], b, corrected);
    }
  }

  /** Filtering at `a` and then at a later `b` is filtering at `b`. */
  lemma {:induction false} InWindowTwice(ts: seq<int>, a: int, b: int)
    requires a <= b
    ensures InWindow(InWindow(ts, a), b) == InWindow(ts, b)
  {
    if ts != [] {
      var head := if a - ts[0] < RateWindowMs then [ts[0]] else [];
      InWindowConcat(head, InWindow(ts[1..], a), b);
      InWindowTwice(ts[1..], a, b);
      if a - ts[0] < RateWindowMs {
        assert InWindow(head, b) == if b - ts[0] < RateWindowMs then [ts[0]] else [];
      }
    }
  }

  /** Timestamps a minute or more old are all dropped. */
  lemma {:induction false} InWindowNone(ts: seq<int>, now: int)
    requires forall i :: 0 <= i < |ts| ==> now - ts[i] >= RateWindowMs
    ensures InWindow(ts, now) == []
  {
    if ts != [] {
      InWindowNone(ts[1..], now);
    }
  }

  lemma {:induction false} RecentConcat(a: seq<int>, b: seq<int>, t: int)
    ensures Recent(a + b, t) == Recent(a, t) + Recent(b, t)
  {
    if a == [] {
      assert a + b == b;
    } else {
      assert (a + b)[1..] == a[1..] + b;
      RecentConcat(a[1..], b, t);
    }
  }

  /** Up to `t`, the recent requests are those the limiter's filter keeps. */
  lemma {:induction false} RecentIsWindow(sent: seq<int>, t: int)
    requires AllAtMost(sent, t)
    ensures Recent(sent, t) == InWindow(sent, t)
  {
    if sent != [] {
      RecentIsWindow(sent[1..], t);
    }
  }

  /** Requests a minute or more before `t`, or after it, are not recent. */
  lemma {:induction false} RecentNone(sent: seq<int>, t: int)
    requires forall i :: 0 <= i < |sent| ==> sent[i] > t || t - sent[i] >= RateWindowMs
    ensures Recent(sent, t) == []
  {
    if sent != [] {
      RecentNone(sent[1..], t);
    }
  }

  /** A call with no gap while the window has room does not wait: it is
      recorded and sent at the clock, as written or corrected. */
  lemma QuietCall(s: Limiter, corrected: bool)
    requires |InWindow(s.stamps, s.clock)| < MaxDeepseekPerWindow
    ensures var r := LimiterCall(s, 0, corrected);
      && r == Limiter(InWindow(s.stamps, s.clock) + [s.clock], s.clock, s.sent + [s.clock])
      && InWindow(r.stamps, s.clock) == InWindow(s.stamps, s.clock) + [s.clock]
  {
    var c := s.clock;
    var window := InWindow(s.stamps, c);
    InWindowConcat(window, [c], c);
    InWindowTwice(s.stamps, c, c);
    assert InWindow([c], c) == [c];
  }

  lemma RunFirst(s: Limiter, gaps: seq<nat>, corrected: bool)
    requires gaps != []
    ensures LimiterRun(s, gaps, corrected) == LimiterRun(LimiterCall(s, gaps[0], corrected), gaps[1..], corrected)
  {
  }

  lemma AppendRepeat(a: seq<int>, x: int, k: nat)
    requires k > 0
    ensures a + [x] + Repeat(k - 1, x) == a + Repeat(k, x)
  {
    assert Repeat(k, x) == [x] + Repeat(k - 1, x);
  }

  /** Calls with no gap while the window has room: none waits, and each is
      recorded and sent at the same instant, as written or corrected. */
  lemma {:induction false} BurstWithRoom(s: Limiter, k: nat, corrected: bool)
    requires |InWindow(s.stamps, s.clock)| + k <= MaxDeepseekPerWindow
    ensures var r := LimiterRun(s, Repeat<nat>(k, 0), corrected);
      && r.clock == s.clock
      && r.sent == s.sent + Repeat(k, s.clock)
      && r.stamps == if k == 0 then s.stamps else InWindow(s.stamps, s.clock) + Repeat(k, s.clock)
    decreases k
  {
    if k > 0 {
      var c := s.clock;
      QuietCall(s, corrected);
      var s1 := LimiterCall(s, 0, corrected);
      RunFirst(s, Repeat<nat>(k, 0), corrected);
      assert Repeat<nat>(k, 0)[1..] == Repeat<nat>(k - 1, 0);
      BurstWithRoom(s1, k - 1, corrected);
      AppendRepeat(s.sent, c, k);
      AppendRepeat(InWindow(s.stamps, c), c, k);
    } else {
      assert s.sent + Repeat(0, s.clock) == s.sent;
    }
  }

  /** A burst from a fresh limiter fills the window at 0. */
  lemma FreshBurst(n: nat, corrected: bool)
    requires n <= MaxDeepseekPerWindow
    ensures LimiterRun(FreshLimiter, Repeat<nat>(n, 0), corrected) == Limiter(Repeat(n, 0), 0, Repeat(n, 0))
  {
    BurstWithRoom(FreshLimiter, n, corrected);
    assert InWindow([], 0) == [];
    assert [] + Repeat(n, 0) == Repeat(n, 0);
  }

  /** A call at 1 after a full burst at 0 waits until 60000; as written it
      is recorded at 1. */
  lemma LateCall(full: nat)
    requires full == MaxDeepseekPerWindow
    ensures LimiterCall(Limiter(Repeat(full, 0), 0, Repeat(full, 0)), 1, false)
         == Limiter(Repeat(full, 0) + [1], RateWindowMs, Repeat(full, 0) + [RateWindowMs])
  {
    var w := InWindow(Repeat(full, 0), 1);
    assert w == Repeat(full, 0) by {
      RepeatAt(full, 0);
      InWindowAll(Repeat(full, 0), 1);
    }
    assert w[0] == 0 by {
      RepeatAt(full, 0);
    }
    assert DeepseekWait(w, 1) == RateWindowMs - 1;
  }

  /** The first minute of the run below: a full burst at 0, then one call at
      1 that waits until 60000 and is recorded at 1. */
  lemma {:induction false} FirstMinute(full: nat)
    requires full == MaxDeepseekPerWindow
    ensures LimiterRun(FreshLimiter, Repeat<nat>(full, 0) + [1], false)
         == Limiter(Repeat(full, 0) + [1], RateWindowMs, Repeat(full, 0) + [RateWindowMs])
  {
    LimiterRunConcat(FreshLimiter, Repeat<nat>(full, 0), [1], false);
    FreshBurst(full, false);
    var s1 := Limiter(Repeat(full, 0), 0, Repeat(full, 0));
    RunFirst(s1, [1], false);
    LateCall(full);
    assert [1][1..] == [];
  }

  /** The second burst: at 60000 only the record at 1 is in the window, so
      14 more calls leave at once. */
  lemma {:induction false} SecondBurst(full: nat)
    requires full == MaxDeepseekPerWindow
    ensures LimiterRun(FreshLimiter, Repeat<nat>(full, 0) + [1] + Repeat<nat>(full - 1, 0), false)
         == Limiter([1] + Repeat(full - 1, RateWindowMs), RateWindowMs,
                    Repeat(full, 0) + [RateWindowMs] + Repeat(full - 1, RateWindowMs))
  {
    var s2 := Limiter(Repeat(full, 0) + [1], RateWindowMs, Repeat(full, 0) + [RateWindowMs]);
    var g1, g2 := Repeat<nat>(full, 0) + [1], Repeat<nat>(full - 1, 0);
    assert LimiterRun(FreshLimiter, g1 + g2, false) == LimiterRun(s2, g2, false) by {
      FirstMinute(full);
      LimiterRunConcat(FreshLimiter, g1, g2, false);
    }
    SecondMinuteBurst(full, s2.sent);
  }

  /** At 60000 the burst at 0 has left the window; the record at 1 has not. */
  lemma SecondMinuteWindow(full: nat)
    ensures InWindow(Repeat(full, 0) + [1], RateWindowMs) == [1]
  {
    InWindowConcat(Repeat(full, 0), [1], RateWindowMs);
    RepeatAt(full, 0);
    InWindowNone(Repeat(full, 0), RateWindowMs);
    assert InWindow([1], RateWindowMs) == [1];
  }

  lemma SecondMinuteBurst(full: nat, sent: seq<int>)
    requires full == MaxDeepseekPerWindow
    ensures LimiterRun(Limiter(Repeat(full, 0) + [1], RateWindowMs, sent), Repeat<nat>(full - 1, 0), false)
         == Limiter([1] + Repeat(full - 1, RateWindowMs), RateWindowMs, sent + Repeat(full - 1, RateWindowMs))
  {
    SecondMinuteWindow(full);
    BurstWithRoom(Limiter(Repeat(full, 0) + [1], RateWindowMs, sent), full - 1, false);
  }

  /** The last call of the run below: the window at 60000 is full and its
      oldest record is 1, so the call waits a single millisecond. */
  lemma LastCall(full: nat, sent: seq<int>)
    requires full == MaxDeepseekPerWindow
    ensures LimiterCall(Limiter([1] + Repeat(full - 1, RateWindowMs), RateWindowMs, sent), 0, false).clock
         == RateWindowMs + 1
  {
    var stamps := [1] + Repeat(full - 1, RateWindowMs);
    var w := InWindow(stamps, RateWindowMs);
    assert w == stamps by {
      RepeatAt(full - 1, RateWindowMs);
      InWindowAll(stamps, RateWindowMs);
    }
    assert DeepseekWait(w, RateWindowMs) == 1;
  }

  /** Of the requests sent in the run below, the 16 sent from 60000 on all
      lie in the minute up to 60001. */
  lemma LateRequests(full: nat)
    requires full == MaxDeepseekPerWindow
    ensures |Recent(Repeat(full, 0) + ([RateWindowMs] + Repeat(full - 1, RateWindowMs) + [RateWindowMs + 1]),
                    RateWindowMs + 1)| == full + 1
  {
    var late := [RateWindowMs] + Repeat(full - 1, RateWindowMs) + [RateWindowMs + 1];
    assert Recent(Repeat(full, 0), RateWindowMs + 1) == [] by {
      RepeatAt(full, 0);
      RecentNone(Repeat(full, 0), RateWindowMs + 1);
    }
    LateAllRecent(full);
    RecentConcat(Repeat(full, 0), late, RateWindowMs + 1);
  }

  /** Every request sent from 60000 on lies in the minute up to 60001. */
  lemma LateAllRecent(full: nat)
    requires full == MaxDeepseekPerWindow
    ensures var late := [RateWindowMs] + Repeat(full - 1, RateWindowMs) + [RateWindowMs + 1];
      Recent(late, RateWindowMs + 1) == late
  {
    var late := [RateWindowMs] + Repeat(full - 1, RateWindowMs) + [RateWindowMs + 1];
    assert forall i :: 0 <= i < |late| ==> RateWindowMs <= late[i] <= RateWindowMs + 1 by {
      RepeatAt(full - 1, RateWindowMs);
    }
    RecentIsWindow(late, RateWindowMs + 1);
    InWindowAll(late, RateWindowMs + 1);
  }

  /** The requests of the run below leave at 0 (15 of them), at 60000 (15)
      and at 60001 (one). */
  lemma {:induction false} AsWrittenRunSent(full: nat)
    requires full == MaxDeepseekPerWindow
    ensures LimiterRun(FreshLimiter, Repeat<nat>(full, 0) + [1] + Repeat<nat>(full - 1, 0) + [0], false).sent
         == Repeat(full, 0) + ([RateWindowMs] + Repeat(full - 1, RateWindowMs) + [RateWindowMs + 1])
  {
    var g := Repeat<nat>(full, 0) + [1] + Repeat<nat>(full - 1, 0);
    var s3 := Limiter([1] + Repeat(full - 1, RateWindowMs), RateWindowMs,
                      Repeat(full, 0) + [RateWindowMs] + Repeat(full - 1, RateWindowMs));
    assert LimiterRun(FreshLimiter, g + [0], false) == LimiterCall(s3, 0, false) by {
      SecondBurst(full);
      LimiterRunConcat(FreshLimiter, g, [0], false);
      RunFirst(s3, [0], false);
      assert [0][1..] == [];
    }
    assert LimiterCall(s3, 0, false).sent == s3.sent + [RateWindowMs + 1] by {
      LastCall(full, s3.sent);
    }
    Regroup(Repeat(full, 0), [RateWindowMs], Repeat(full - 1, RateWindowMs), [RateWindowMs + 1]);
  }

  lemma Regroup(a: seq<int>, b: seq<int>, c: seq<int>, d: seq<int>)
    ensures a + b + c + d == a + (b + c + d)
  {
  }

  /** As written, the limiter lets 16 requests leave within 2 ms: 15 calls at
      0; one at 1, which waits until 60000 but is recorded at 1; 14 calls at
      60000, which find only that record in the window; and one more, which
      waits a single millisecond. */
  lemma AsWrittenExceedsQuota(full: nat)
    requires full == MaxDeepseekPerWindow
    ensures var r := LimiterRun(FreshLimiter, Repeat<nat>(full, 0) + [1] + Repeat<nat>(full - 1, 0) + [0], false);
      |Recent(r.sent, RateWindowMs + 1)| == full + 1 && !WithinQuota(r.sent)
  {
    AsWrittenRunSent(full);
    LateRequests(full);
  }

  /** After the wait, the oldest of a full window has left it: from then on
      the window holds fewer than 15 timestamps. */
  lemma WindowRoomAfterWait(ts: seq<int>, now: int, t: int)
    requires |InWindow(ts, now)| <= MaxDeepseekPerWindow
    requires t >= now + DeepseekWait(InWindow(ts, now), now)
    ensures |InWindow(InWindow(ts, now), t)| < MaxDeepseekPerWindow
  {
    var window := InWindow(ts, now);
    if |window| >= MaxDeepseekPerWindow {
      assert t - window[0] >= RateWindowMs;
      assert InWindow(window, t) == InWindow(window[1..], t);
    }
  }

  /** What the corrected limiter keeps between calls: every sent request lies
      at or before the clock; from the clock on, the kept timestamps see
      exactly the sent requests; and no minute holds more than 15 of them. */
  ghost predicate CorrectedInv(s: Limiter) {
    && AllAtMost(s.sent, s.clock)
    && (forall t :: t >= s.clock ==> InWindow(s.stamps, t) == InWindow(s.sent, t))
    && WithinQuota(s.sent)
  }

  /** The corrected call, spelled out. */
  lemma CorrectedCall(s: Limiter, gap: nat)
    ensures var now := s.clock + gap;
      var window := InWindow(s.stamps, now);
      var at := now + DeepseekWait(window, now);
      LimiterCall(s, gap, true) == Limiter(window + [at], at, s.sent + [at]) && at >= now
  {
  }

  /** The corrected call keeps the timestamps in step with the sent
      requests. */
  lemma CorrectedStepWindow(s: Limiter, gap: nat)
    requires forall u :: u >= s.clock ==> InWindow(s.stamps, u) == InWindow(s.sent, u)
    ensures var r := LimiterCall(s, gap, true);
      forall t :: t >= r.clock ==> InWindow(r.stamps, t) == InWindow(r.sent, t)
  {
    var now := s.clock + gap;
    var window := InWindow(s.stamps, now);
    var at := now + DeepseekWait(window, now);
    CorrectedCall(s, gap);
    forall t | t >= at
      ensures InWindow(window + [at], t) == InWindow(s.sent + [at], t)
    {
      CorrectedWindowAt(s, now, at, t);
    }
  }

  /** One time `t` from the corrected call's return on: the kept window and
      the sent requests, each with the new request, agree at `t`. */
  lemma CorrectedWindowAt(s: Limiter, now: int, at: int, t: int)
    requires s.clock <= now <= at <= t
    requires forall u :: u >= s.clock ==> InWindow(s.stamps, u) == InWindow(s.sent, u)
    ensures InWindow(InWindow(s.stamps, now) + [at], t) == InWindow(s.sent + [at], t)
  {
    InWindowConcat(InWindow(s.stamps, now), [at], t);
    InWindowConcat(s.sent, [at], t);
    InWindowTwice(s.stamps, now, t);
    assert InWindow(s.stamps, t) == InWindow(s.sent, t);
  }

  /** The corrected call keeps every minute within the quota. */
  lemma CorrectedStepQuota(s: Limiter, gap: nat)
    requires CorrectedInv(s)
    ensures WithinQuota(LimiterCall(s, gap, true).sent)
  {
    var now := s.clock + gap;
    var window := InWindow(s.stamps, now);
    var at := now + DeepseekWait(window, now);
    CorrectedCall(s, gap);
    assert |window| <= MaxDeepseekPerWindow by {
      RecentIsWindow(s.sent, now);
      assert window == InWindow(s.sent, now);
      assert |Recent(s.sent, now)| <= MaxDeepseekPerWindow;
    }
    forall t
      ensures |Recent(s.sent + [at], t)| <= MaxDeepseekPerWindow
    {
      CorrectedQuotaAt(s, now, at, t);
    }
  }

  /** One time `t`: the minute up to `t` still holds at most 15 requests
      once the corrected call's request has left at `at`. */
  lemma CorrectedQuotaAt(s: Limiter, now: int, at: int, t: int)
    requires s.clock <= now <= at && at == now + DeepseekWait(InWindow(s.stamps, now), now)
    requires |InWindow(s.stamps, now)| <= MaxDeepseekPerWindow
    requires AllAtMost(s.sent, s.clock)
    requires t >= at ==> InWindow(s.stamps, t) == InWindow(s.sent, t)
    requires |Recent(s.sent, t)| <= MaxDeepseekPerWindow
    ensures |Recent(s.sent + [at], t)| <= MaxDeepseekPerWindow
  {
    RecentConcat(s.sent, [at], t);
    if t >= at {
      assert |Recent(s.sent, t)| < MaxDeepseekPerWindow by {
        assert AllAtMost(s.sent, t);
        RecentIsWindow(s.sent, t);
        InWindowTwice(s.stamps, now, t);
        WindowRoomAfterWait(s.stamps, now, t);
      }
    }
  }

  lemma CorrectedStep(s: Limiter, gap: nat)
    requires CorrectedInv(s)
    ensures CorrectedInv(LimiterCall(s, gap, true))
  {
    CorrectedCall(s, gap);
    CorrectedStepWindow(s, gap);
    CorrectedStepQuota(s, gap);
  }

  lemma {:induction false} CorrectedRun(s: Limiter, gaps: seq<nat>)
    requires CorrectedInv(s)
    ensures CorrectedInv(LimiterRun(s, gaps, true))
    decreases |gaps|
  {
    if gaps != [] {
      CorrectedStep(s, gaps[0]);
      CorrectedRun(LimiterCall(s, gaps[0], true), gaps[1..]);
    }
  }

  /** Corrected, the limiter keeps its promise about the requests
      themselves: whatever the gaps between calls, no minute holds more than
      15 of them. */
  lemma CorrectedKeepsQuota(gaps: seq<nat>)
    ensures WithinQuota(LimiterRun(FreshLimiter, gaps, true).sent)
  {
    CorrectedRun(FreshLimiter, gaps);
  }

  // ---------------------------------------------------------------------------
  // Provider replies

  /** A reply of DeepSeek's chat endpoint: the request threw (network error or
      unreadable JSON), the status was not OK, or a body whose first choice may
      carry content. */
  datatype DeepseekReply = Threw | HttpError(status: int) | Body(content: Option<string>)

  /** What the `try` block of `aiSummariseCommit` returns for a reply. */
  function CommitReplyText(reply: DeepseekReply): (text: string)
    ensures text != []
    ensures reply.Body? && reply.content.Some? && Trim(reply.content.value) != [] ==>
              text == Trim(reply.content.value)
    ensures reply.Body? && (reply.content.None? || Trim(reply.content.value) == []) ==> text == NoSummaryText
    ensures reply.HttpError? ==> text == DeepseekHttpErrorText
    ensures reply.Threw? ==> text == CommitExceptionText
  {
    match reply
    case Threw => CommitExceptionText
    case HttpError(_) => DeepseekHttpErrorText
    case Body(content) =>
      if content.Some? && Trim(content.value) != [] then Trim(content.value) else NoSummaryText
  }

  /** The text `aiSummariseCommit` returns: never empty; the fixed
      no-changes text for a blank diff, whatever the provider would answer;
      otherwise the text the reply maps to. */
  function CommitSummaryText(diff: string, reply: DeepseekReply): (text: string)
    ensures text != []
    ensures AllSpace(diff) ==> text == NoChangesText
    ensures !AllSpace(diff) ==> text == CommitReplyText(reply)
  {
    if diff == [] || |Trim(diff)| == 0 then NoChangesText else CommitReplyText(reply)
  }

  /** A reply of the Groq chat endpoint: an answer whose first choice may
      carry content, or an error with an optional code and HTTP status. */
  datatype GroqReply = Answer(content: Option<string>) | Failure(code: Option<string>, status: Option<int>)

  /** A timeout or a server error is worth another attempt; anything else,
      including an answer without content (a TypeError), is not. */
  predicate Retriable(reply: GroqReply) {
    reply.Failure? && (reply.code == Some("ECONNABORTED") || (reply.status.Some? && reply.status.value >= 500))
  }

  predicate Summarises(reply: GroqReply) {
    reply.Answer? && reply.content.Some?
  }

  /** How the attempt loop ends: with the raw content of an answer, or giving up. */
  datatype AttemptOutcome = Summarised(content: string, attempts: nat) | GaveUp(attempts: nat)

  /** The attempt loop of `summariseCode` from attempt number `attempt` on,
      the i-th attempt seeing `replies[i - 1]`. */
  function Attempts(replies: seq<GroqReply>, attempt: nat): (o: AttemptOutcome)
    requires 1 <= attempt <= MaxAttempts <= |replies|
    ensures attempt <= o.attempts <= MaxAttempts
    decreases MaxAttempts - attempt
  {
    var reply := replies[attempt - 1];
    if Summarises(reply) then Summarised(reply.content.value, attempt)
    else if !Retriable(reply) || attempt == MaxAttempts then GaveUp(attempt)
    else Attempts(replies, attempt + 1)
  }

  /** The loop makes at most two attempts and goes on only after a retriable
      failure; it ends on the first answer with content, returning its content,
      or gives up on a non-retriable failure or on the last attempt. */
  lemma {:induction false} AttemptsMeaning(replies: seq<GroqReply>, attempt: nat)
    requires 1 <= attempt <= MaxAttempts <= |replies|
    ensures attempt <= Attempts(replies, attempt).attempts <= MaxAttempts
    ensures forall i :: attempt - 1 <= i < Attempts(replies, attempt).attempts - 1 ==> Retriable(replies[i])
    ensures Attempts(replies, attempt).Summarised? <==> Summarises(replies[Attempts(replies, attempt).attempts - 1])
    ensures Attempts(replies, attempt).Summarised? ==>
      Attempts(replies, attempt).content == replies[Attempts(replies, attempt).attempts - 1].content.value
    ensures Attempts(replies, attempt).GaveUp? ==>
      !Retriable(replies[Attempts(replies, attempt).attempts - 1]) || Attempts(replies, attempt).attempts == MaxAttempts
    decreases MaxAttempts - attempt
  {
    var reply := replies[attempt - 1];
    if Summarises(reply) {
      assert Attempts(replies, attempt) == Summarised(reply.content.value, attempt);
    } else if !Retriable(reply) || attempt == MaxAttempts {
      assert Attempts(replies, attempt) == GaveUp(attempt);
    } else {
      assert Attempts(replies, attempt) == Attempts(replies, attempt + 1);
      AttemptsMeaning(replies, attempt + 1);
    }
  }

  /** A reply of the Gemini embedding model. */
  datatype EmbedReply = Embedded(values: seq<real>) | EmbedFailed

  /** `generateEmbedding`: the vector, or the empty vector when the call fails. */
  function GenerateEmbedding(reply: EmbedReply): (v: seq<real>)
    ensures reply.EmbedFailed? ==> v == []
    ensures reply.Embedded? ==> v == reply.values
  {
    match reply
    case Embedded(values) => values
    case EmbedFailed => []
  }

  // ---------------------------------------------------------------------------
  // Documents and prompts

  /** A loaded file: its text and `metadata.source`, when present. */
  datatype Document = Document(pageContent: string, source: Option<string>)

  /** `${doc.metadata.source}` in a template literal. */
  function SourceLabel(doc: Document): string {
    match doc.source
    case Some(s) => s
    case None => "undefined"
  }

  /** The prompt `summariseCode` sends, and the key of its cache entry. */
  function CodePrompt(doc: Document): string {
    "You're onboarding a junior dev. Explain what this file does: " + SourceLabel(doc)
    + "\n\nCode:\n" + Prefix(doc.pageContent, MaxCodeChars) + "\n\nKeep the summary under 100 words."
  }

  /** Only the first 10000 characters of a file reach the prompt: files that
      agree on them share one prompt, hence one cache entry. */
  lemma PromptSeesOnlyPrefix(doc: Document, more: string)
    requires |doc.pageContent| >= MaxCodeChars
    ensures CodePrompt(Document(doc.pageContent + more, doc.source)) == CodePrompt(doc)
  {
    assert (doc.pageContent + more)[..MaxCodeChars] == doc.pageContent[..MaxCodeChars];
  }

  // ---------------------------------------------------------------------------
  // The module-level state of together.ts

  class ProviderState {
    var groqTokensUsed: int
    var lastGroqCall: int
    var groqCalls: int
    var lastGeminiCall: int
    var geminiCalls: int
    var summaryCache: map<string, string>
    var deepseekTimestamps: seq<int>

    /** The state when the module is loaded. */
    constructor ()
      ensures groqTokensUsed == 0 && lastGroqCall == 0 && groqCalls == 0
      ensures lastGeminiCall == 0 && geminiCalls == 0
      ensures summaryCache == map[] && deepseekTimestamps == []
      ensures Valid()
    {
      groqTokensUsed, lastGroqCall, groqCalls := 0, 0, 0;
      lastGeminiCall, geminiCalls := 0, 0;
      summaryCache := map[];
      deepseekTimestamps := [];
    }

    ghost function Groq(): GroqCounters
      reads this
    {
      GroqCounters(groqTokensUsed, lastGroqCall, groqCalls)
    }

    ghost function Gemini(): GeminiCounters
      reads this
    {
      GeminiCounters(lastGeminiCall, geminiCalls)
    }

    /** What the limiters keep true between calls. */
    ghost predicate Valid()
      reads this
    {
      GroqWithinBudget(Groq())
      && 0 <= geminiCalls <= MaxGeminiRpm
      && Ascending(deepseekTimestamps)
    }

    /** Every recorded call lies in the past of `now`, and at most 15 DeepSeek
        calls are recorded in the minute before `now`. */
    ghost predicate InPast(now: int)
      reads this
    {
      lastGroqCall <= now && lastGeminiCall <= now
      && AllAtMost(deepseekTimestamps, now)
      && |InWindow(deepseekTimestamps, now)| <= MaxDeepseekPerWindow
    }

    lemma InPastLater(now: int, later: int)
      requires InPast(now) && now <= later
      ensures InPast(later)
    {
      InWindowLater(deepseekTimestamps, now, later);
    }

    /** `limitGroqRate(tokenCount)`. */
    method LimitGroqRate(tokenCount: nat, clock: Clock)
      requires Valid() && InPast(clock.now)
      modifies this, clock
      ensures Valid() && InPast(clock.now)
      ensures Groq() == GroqStep(old(Groq()), tokenCount, old(clock.now))
      ensures clock.now == old(clock.now) + GroqWait(old(Groq()), tokenCount, old(clock.now))
      ensures Gemini() == old(Gemini()) && deepseekTimestamps == old(deepseekTimestamps)
      ensures summaryCache == old(summaryCache)
    {
      GroqStepKeepsBudget(Groq(), tokenCount, clock.now);
      var now := clock.now;
      if groqCalls >= MaxGroqRpm || groqTokensUsed + tokenCount > MaxGroqTpm {
        var delayTime := RateWindowMs - (now - lastGroqCall);
        if delayTime > 0 {
          clock.Delay(delayTime);
        }
        groqCalls := 0;
        groqTokensUsed := 0;
      }
      InPastLater(now, clock.now);
      lastGroqCall := clock.now;
      groqCalls := groqCalls + 1;
      groqTokensUsed := groqTokensUsed + tokenCount;
    }

    /** `limitGeminiRate()`. */
    method LimitGeminiRate(clock: Clock)
      requires Valid() && InPast(clock.now)
      modifies this, clock
      ensures Valid() && InPast(clock.now)
      ensures Gemini() == GeminiStep(old(Gemini()), old(clock.now))
      ensures clock.now == old(clock.now) + GeminiWait(old(Gemini()), old(clock.now))
      ensures Groq() == old(Groq()) && deepseekTimestamps == old(deepseekTimestamps)
      ensures summaryCache == old(summaryCache)
    {
      GeminiStepKeepsBudget(Gemini(), clock.now);
      var now := clock.now;
      if geminiCalls >= MaxGeminiRpm {
        var delayTime := RateWindowMs - (now - lastGeminiCall);
        if delayTime > 0 {
          clock.Delay(delayTime);
        }
        geminiCalls := 0;
      }
      InPastLater(now, clock.now);
      lastGeminiCall := clock.now;
      geminiCalls := geminiCalls + 1;
    }

    /** `limitDeepseekRate()`. */
    method LimitDeepseekRate(clock: Clock)
      requires Valid() && InPast(clock.now)
      modifies this, clock
      ensures Valid() && InPast(clock.now)
      ensures var window := InWindow(old(deepseekTimestamps), old(clock.now));
        && deepseekTimestamps == window + [old(clock.now)]
        && clock.now == old(clock.now) + DeepseekWait(window, old(clock.now))
      ensures (deepseekTimestamps, clock.now) == DeepseekCall(old(deepseekTimestamps), old(clock.now))
      ensures Groq() == old(Groq()) && Gemini() == old(Gemini())
      ensures summaryCache == old(summaryCache)
    {
      var now := clock.now;
      ghost var after := DeepseekCall(deepseekTimestamps, now);
      DeepseekKeepsQuota(deepseekTimestamps, now);
      deepseekTimestamps := InWindow(deepseekTimestamps, now);
      if |deepseekTimestamps| >= MaxDeepseekPerWindow {
        var waitTime := RateWindowMs - (now - deepseekTimestamps[0]);
        clock.Delay(waitTime);
      }
      deepseekTimestamps := deepseekTimestamps + [now];
      assert (deepseekTimestamps, clock.now) == after;
    }

    /** `aiSummariseCommit(diff)`: a blank diff is answered without touching
        the limiter; otherwise the limiter runs and the reply becomes a
        non-empty text, never an exception. */
    method AiSummariseCommit(diff: string, reply: DeepseekReply, clock: Clock) returns (summary: string)
      requires Valid() && InPast(clock.now)
      modifies this, clock
      ensures Valid() && InPast(clock.now)
      ensures summary == CommitSummaryText(diff, reply)
      ensures AllSpace(diff) ==> unchanged(this) && clock.now == old(clock.now)
      ensures !AllSpace(diff) ==>
        (deepseekTimestamps, clock.now) == DeepseekCall(old(deepseekTimestamps), old(clock.now))
      ensures Groq() == old(Groq()) && Gemini() == old(Gemini())
      ensures summaryCache == old(summaryCache)
    {
      if diff == [] || |Trim(diff)| == 0 {
        return NoChangesText;
      }
      LimitDeepseekRate(clock);
      summary := CommitReplyText(reply);
    }

    /** The attempt loop of `summariseCode`: at most two attempts with a
        two-second pause between them, yielding the content of the first
        answer that has one, or nothing once a failure is not worth retrying
        or the attempts are spent. */
    method AttemptAnswer(replies: seq<GroqReply>, clock: Clock) returns (content: Option<string>)
      requires InPast(clock.now)
      requires |replies| >= MaxAttempts
      modifies clock
      ensures InPast(clock.now)
      ensures clock.now == old(clock.now) + RetryPauseMs * (Attempts(replies, 1).attempts - 1)
      ensures Attempts(replies, 1).Summarised? ==> content == Some(Attempts(replies, 1).content)
      ensures Attempts(replies, 1).GaveUp? ==> content == None
    {
      var attempt := 1;
      while attempt <= MaxAttempts
        invariant 1 <= attempt <= MaxAttempts
        invariant Attempts(replies, attempt) == Attempts(replies, 1)
        invariant clock.now == old(clock.now) + RetryPauseMs * (attempt - 1)
        invariant InPast(clock.now)
        decreases MaxAttempts - attempt
      {
        var reply := replies[attempt - 1];
        if Summarises(reply) {
          return Some(reply.content.value);
        }
        if !Retriable(reply) || attempt == MaxAttempts {
          return None;
        }
        ghost var before := clock.now;
        clock.Delay(RetryPauseMs);
        InPastLater(before, clock.now);
        attempt := attempt + 1;
      }
      assert false;
      content := None;
    }

    /** What `summariseCode` does for a prompt missing from the cache: the
        Groq limiter runs with the prompt's token count, the attempt loop
        follows, a summary is stored trimmed under its prompt, and every
        failure becomes the fixed error text instead of an exception. */
    method SummariseUncached(prompt: string, tokenCount: nat, replies: seq<GroqReply>, clock: Clock)
      returns (summary: string)
      requires Valid() && InPast(clock.now)
      requires |replies| >= MaxAttempts
      modifies this, clock
      ensures Valid() && InPast(clock.now)
      ensures Gemini() == old(Gemini()) && deepseekTimestamps == old(deepseekTimestamps)
      ensures Groq() == GroqStep(old(Groq()), tokenCount, old(clock.now))
      ensures clock.now == old(clock.now) + GroqWait(old(Groq()), tokenCount, old(clock.now))
                           + RetryPauseMs * (Attempts(replies, 1).attempts - 1)
      ensures Attempts(replies, 1).Summarised? ==>
        summary == Trim(Attempts(replies, 1).content) && summaryCache == old(summaryCache)[prompt := summary]
      ensures Attempts(replies, 1).GaveUp? ==> summary == CodeErrorText && summaryCache == old(summaryCache)
    {
      LimitGroqRate(tokenCount, clock);
      var content := AttemptAnswer(replies, clock);
      match content {
        case Some(c) =>
          summary := CacheSummary(prompt, c);
        case None =>
          summary := CodeErrorText;
      }
    }

    /** The trimmed answer is remembered under its prompt and returned. */
    method CacheSummary(prompt: string, content: string) returns (summary: string)
      modifies this
      ensures summary == Trim(content)
      ensures summaryCache == old(summaryCache)[prompt := summary]
      ensures Groq() == old(Groq()) && Gemini() == old(Gemini())
      ensures deepseekTimestamps == old(deepseekTimestamps)
    {
      summary := Trim(content);
      var cache := summaryCache[prompt := summary];
      summaryCache := cache;
    }

    /** `summariseCode(doc)`: a prompt already in the cache is answered before
        any rate limiting; any other prompt is summarised as above. */
    method SummariseCode(doc: Document, replies: seq<GroqReply>, clock: Clock) returns (summary: string)
      requires Valid() && InPast(clock.now)
      requires |replies| >= MaxAttempts
      modifies this, clock
      ensures Valid() && InPast(clock.now)
      ensures Gemini() == old(Gemini()) && deepseekTimestamps == old(deepseekTimestamps)
      ensures CodePrompt(doc) in old(summaryCache) ==>
        && summary == old(summaryCache)[CodePrompt(doc)]
        && unchanged(this) && clock.now == old(clock.now)
      ensures CodePrompt(doc) !in old(summaryCache) ==>
        var tokenCount := CountTokens(CodePrompt(doc));
        var o := Attempts(replies, 1);
        && Groq() == GroqStep(old(Groq()), tokenCount, old(clock.now))
        && clock.now == old(clock.now) + GroqWait(old(Groq()), tokenCount, old(clock.now))
                        + RetryPauseMs * (o.attempts - 1)
        && (o.Summarised? ==> summary == Trim(o.content) && summaryCache == old(summaryCache)[CodePrompt(doc) := summary])
        && (o.GaveUp? ==> summary == CodeErrorText && summaryCache == old(summaryCache))
    {
      var prompt := CodePrompt(doc);
      var tokenCount := CountTokens(prompt);
      if prompt in summaryCache {
        return summaryCache[prompt];
      }
      summary := SummariseUncached(prompt, tokenCount, replies, clock);
    }
  }
}
