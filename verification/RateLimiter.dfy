/** The sliding-window rate limiter, with a clock that does not run backwards. */
module RateLimiter {
  import opened Options
  import opened Windows

  type Entries = map<string, seq<real>>

  /** The times after the cutoff, in order. */
  function Recent(times: seq<real>, cutoff: real): seq<real> {
    if times == [] then []
    else
      var n := |times| - 1;
      if times[n] > cutoff then Recent(times[..n], cutoff) + [times[n]] else Recent(times[..n], cutoff)
  }

  function Of(es: Entries, key: string): seq<real> {
    if key in es then es[key] else []
  }

  /** A request against the stored, pruned list. */
  function Asked(es: Entries, key: string, now: real, maxRequests: int, window: real): (Entries, bool) {
    var kept := Recent(Of(es, key), now - window);
    if |kept| >= maxRequests then (es[key := kept], false) else (es[key := kept + [now]], true)
  }

  function Remaining(es: Entries, key: string, now: real, maxRequests: int, window: real): int {
    if key !in es then maxRequests else Max(0, maxRequests - |Recent(es[key], now - window)|)
  }

  class RateLimiter {
    const maxRequests: int
    const window: real
    var entries: Entries

    constructor (maxRequests: int, window: real)
      ensures this.maxRequests == maxRequests && this.window == window && entries == map[]
    {
      this.maxRequests, this.window, entries := maxRequests, window, map[];
    }

    method IsAllowed(key: string, now: real) returns (allowed: bool)
      modifies this
      ensures (entries, allowed) == Asked(old(entries), key, now, maxRequests, window)
    {
      var stored, kept, cutoff := Of(entries, key), [], now - window;
      for i := 0 to |stored|
        invariant kept == Recent(stored[..i], cutoff)
      {
        assert stored[..i + 1][..i] == stored[..i];
        if stored[i] > cutoff {
          kept := kept + [stored[i]];
        }
      }
      assert stored[..|stored|] == stored;
      entries := entries[key := kept];
      if |kept| >= maxRequests {
        return false;
      }
      assert entries[key := kept + [now]] == old(entries)[key := kept + [now]];
      entries := entries[key := kept + [now]];
      return true;
    }

    method ResetKey(key: string)
      modifies this
      ensures entries == old(entries) - {key}
    {
      entries := entries - {key};
    }

    method ResetAll()
      modifies this
      ensures entries == map[]
    {
      entries := map[];
    }

    method GetRemaining(key: string, now: real) returns (n: int)
      ensures n == Remaining(entries, key, now, maxRequests, window)
    {
      if key !in entries {
        return maxRequests;
      }
      var active := 0;
      for i := 0 to |entries[key]|
        invariant active == |Recent(entries[key][..i], now - window)|
      {
        assert entries[key][..i + 1][..i] == entries[key][..i];
        if entries[key][i] > now - window {
          active := active + 1;
        }
      }
      assert entries[key][..|entries[key]|] == entries[key];
      n := Max(0, maxRequests - active);
    }
  }

  // Runs.

  datatype Event = Ask(key: string, now: real) | ResetOne(key: string, now: real) | ResetEvery(now: real)

  ghost predicate Ordered(es: seq<Event>) {
    forall i, k :: 0 <= i <= k < |es| ==> es[i].now <= es[k].now
  }

  function Step(s: Entries, e: Event, maxRequests: int, window: real): Entries {
    match e
    case Ask(key, now) => Asked(s, key, now, maxRequests, window).0
    case ResetOne(key, _) => s - {key}
    case ResetEvery(_) => map[]
  }

  function Run(es: seq<Event>, maxRequests: int, window: real): Entries {
    if es == [] then map[] else Step(Run(es[..|es| - 1], maxRequests, window), es[|es| - 1], maxRequests, window)
  }

  /** The reference: every admission of a key since its last reset, none ever pruned. A request is admitted while
      fewer than the maximum fall into the window that ends with it. */
  function History(es: seq<Event>, key: string, maxRequests: int, window: real): seq<real> {
    if es == [] then []
    else
      var before := History(es[..|es| - 1], key, maxRequests, window);
      match es[|es| - 1]
      case Ask(k, now) => if k == key && Admits(before, now, maxRequests, window) then before + [now] else before
      case ResetOne(k, _) => if k == key then [] else before
      case ResetEvery(_) => []
  }

  predicate Admits(history: seq<real>, now: real, maxRequests: int, window: real) {
    Count(history, t => now - window < t <= now) < maxRequests
  }

  ghost predicate UpTo(times: seq<real>, now: real) {
    forall i :: 0 <= i < |times| ==> times[i] <= now
  }

  ghost predicate Ascends(times: seq<real>) {
    forall i, k :: 0 <= i <= k < |times| ==> times[i] <= times[k]
  }

  ghost predicate Past(es: seq<Event>, now: real) {
    forall i :: 0 <= i < |es| ==> es[i].now <= now
  }

  lemma {:induction false} RecentCounts(times: seq<real>, now: real, window: real)
    requires UpTo(times, now)
    ensures |Recent(times, now - window)| == Count(times, t => now - window < t <= now)
  {
    if times != [] {
      var n := |times| - 1;
      RecentCounts(times[..n], now, window);
    }
  }

  lemma {:induction false} RecentTwice(times: seq<real>, a: real, b: real)
    requires a <= b
    ensures Recent(Recent(times, a), b) == Recent(times, b)
  {
    if times != [] {
      var n := |times| - 1;
      RecentTwice(times[..n], a, b);
      var r := Recent(times[..n], a);
      if times[n] > a {
        assert (r + [times[n]])[..|r|] == r && (r + [times[n]])[|r|] == times[n];
      }
    }
  }

  lemma {:induction false} HistoryIsPast(es: seq<Event>, key: string, now: real, maxRequests: int, window: real)
    requires Past(es, now)
    ensures UpTo(History(es, key, maxRequests, window), now)
  {
    if es != [] {
      HistoryIsPast(es[..|es| - 1], key, now, maxRequests, window);
    }
  }

  /** From `now` on, the pruned list and the history agree on what is recent. */
  ghost predicate Agree(pruned: seq<real>, history: seq<real>, now: real, window: real) {
    forall c :: c >= now - window ==> Recent(pruned, c) == Recent(history, c)
  }

  lemma {:induction false} PrunedAgrees(es: seq<Event>, key: string, now: real, maxRequests: int, window: real)
    requires Ordered(es) && Past(es, now)
    ensures Agree(Of(Run(es, maxRequests, window), key), History(es, key, maxRequests, window), now, window)
  {
    if es != [] {
      var before, e := es[..|es| - 1], es[|es| - 1];
      PrunedAgrees(before, key, e.now, maxRequests, window);
      if e.Ask? && e.key == key {
        AskAgrees(before, key, e.now, now, maxRequests, window);
      }
    }
  }

  lemma KeptAgrees(list: seq<real>, h: seq<real>, asked: real, now: real, window: real)
    requires Agree(list, h, asked, window) && asked <= now
    ensures Agree(Recent(list, asked - window), h, now, window)
    ensures Agree(Recent(list, asked - window) + [asked], h + [asked], now, window)
  {
    var kept := Recent(list, asked - window);
    assert (kept + [asked])[..|kept|] == kept && (h + [asked])[..|h|] == h;
    forall c | c >= now - window
      ensures Recent(kept, c) == Recent(h, c)
      ensures Recent(kept + [asked], c) == Recent(h + [asked], c)
    {
      RecentTwice(list, asked - window, c);
    }
  }

  lemma AskAgrees(before: seq<Event>, key: string, asked: real, now: real, maxRequests: int, window: real)
    requires Ordered(before) && Past(before, asked)
    requires asked <= now
    requires Agree(Of(Run(before, maxRequests, window), key), History(before, key, maxRequests, window), asked, window)
    ensures var s, h := Run(before, maxRequests, window), History(before, key, maxRequests, window);
      && (Asked(s, key, asked, maxRequests, window).1 <==> Admits(h, asked, maxRequests, window))
      && Agree(Asked(s, key, asked, maxRequests, window).0[key],
               if Admits(h, asked, maxRequests, window) then h + [asked] else h, now, window)
  {
    hide Run, History, Agree;
    var s, h := Run(before, maxRequests, window), History(before, key, maxRequests, window);
    HistoryIsPast(before, key, asked, maxRequests, window);
    RecentCounts(h, asked, window);
    KeptAgrees(Of(s, key), h, asked, now, window);
    assert Recent(Of(s, key), asked - window) == Recent(h, asked - window) by {
      AgreeAt(Of(s, key), h, asked, window, asked - window);
    }
  }

  lemma AgreeAt(pruned: seq<real>, history: seq<real>, now: real, window: real, cutoff: real)
    requires Agree(pruned, history, now, window) && cutoff >= now - window
    ensures Recent(pruned, cutoff) == Recent(history, cutoff)
  {
  }

  /** The limiter answers as if it had kept every admission: a request is refused exactly when its own window
      already holds the maximum. */
  lemma PrunedRefinesHistory(es: seq<Event>, key: string, now: real, maxRequests: int, window: real)
    requires Ordered(es) && Past(es, now)
    ensures Asked(Run(es, maxRequests, window), key, now, maxRequests, window).1
       <==> Admits(History(es, key, maxRequests, window), now, maxRequests, window)
  {
    PrunedAgrees(es, key, now, maxRequests, window);
    AskAgrees(es, key, now, now, maxRequests, window);
  }

  /** Some requests remain exactly when one would be admitted at that instant, by the stored list and by the full
      history alike. */
  lemma RemainingIff(es: seq<Event>, key: string, now: real, maxRequests: int, window: real)
    requires Ordered(es) && Past(es, now)
    ensures var s := Run(es, maxRequests, window);
      && (Remaining(s, key, now, maxRequests, window) > 0 <==> Asked(s, key, now, maxRequests, window).1)
      && (Remaining(s, key, now, maxRequests, window) > 0
          <==> Admits(History(es, key, maxRequests, window), now, maxRequests, window))
  {
    PrunedRefinesHistory(es, key, now, maxRequests, window);
  }

  /** How many remain: the maximum less the admissions in the window that ends now; of a key that has not been asked for
      since its reset, all. */
  lemma RemainingCounts(es: seq<Event>, key: string, now: real, maxRequests: int, window: real)
    requires Ordered(es) && Past(es, now)
    ensures var used := Count(History(es, key, maxRequests, window), t => now - window < t <= now);
      var asked := key in Run(es, maxRequests, window);
      && (!asked ==> used == 0)
      && Remaining(Run(es, maxRequests, window), key, now, maxRequests, window)
         == if asked then Max(0, maxRequests - used) else maxRequests
  {
    hide Run, History, Agree;
    var s, h := Run(es, maxRequests, window), History(es, key, maxRequests, window);
    PrunedAgrees(es, key, now, maxRequests, window);
    HistoryIsPast(es, key, now, maxRequests, window);
    RecentCounts(h, now, window);
    AgreeAt(Of(s, key), h, now, window, now - window);
  }

  lemma {:induction false} HistoryIsSpaced(es: seq<Event>, key: string, maxRequests: int, window: real)
    requires Ordered(es)
    ensures Spaced(History(es, key, maxRequests, window), Max(0, maxRequests), window)
  {
    if es != [] {
      var before, e, n := es[..|es| - 1], es[|es| - 1], Max(0, maxRequests);
      HistoryIsSpaced(before, key, maxRequests, window);
      var h := History(before, key, maxRequests, window);
      if e.Ask? && e.key == key && Admits(h, e.now, maxRequests, window) {
        HistoryIsPast(before, key, e.now, maxRequests, window);
        HistoryAscends(before, key, maxRequests, window);
        if n <= |h| {
          var p := t => e.now - window < t <= e.now;
          forall i | 0 <= i <= |h| - n ensures h[i] <= e.now - window {
            if h[i] > e.now - window {
              CountAll(h, i, p);
            }
          }
        }
      }
    }
  }

  lemma {:induction false} HistoryAscends(es: seq<Event>, key: string, maxRequests: int, window: real)
    requires Ordered(es)
    ensures Ascends(History(es, key, maxRequests, window))
  {
    if es != [] {
      HistoryAscends(es[..|es| - 1], key, maxRequests, window);
      HistoryIsPast(es[..|es| - 1], key, es[|es| - 1].now, maxRequests, window);
    }
  }

  lemma {:induction false} CountAll(times: seq<real>, from: nat, p: real -> bool)
    requires from <= |times| && forall i :: from <= i < |times| ==> p(times[i])
    ensures Count(times, p) >= |times| - from
  {
    if from < |times| {
      CountAll(times[..|times| - 1], from, p);
    }
  }

  /** Every window (t, t + window] holds at most the maximum number of admissions. */
  lemma WindowHoldsAtMost(es: seq<Event>, key: string, t: real, maxRequests: int, window: real)
    requires Ordered(es)
    ensures Count(History(es, key, maxRequests, window), x => t < x <= t + window) <= Max(0, maxRequests)
  {
    HistoryIsSpaced(es, key, maxRequests, window);
    SpacedCount(History(es, key, maxRequests, window), Max(0, maxRequests), window, x => t < x <= t + window);
  }
}
