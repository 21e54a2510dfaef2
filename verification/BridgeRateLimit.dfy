/** The bridge API's rate limiter: pruned timestamp lists per application, against the plain rule over the
    whole call history. */
module BridgeRateLimit {

  const LIMIT: nat := 10
  const WINDOW: int := 1000

  datatype Call = Call(app: string, time: int, ok: bool)

  /** The times of the accepted calls of one application. */
  function Accepted(h: seq<Call>, app: string): seq<int> {
    if h == [] then []
    else Accepted(h[..|h| - 1], app) + AcceptedBy(h[|h| - 1], app)
  }

  function AcceptedBy(c: Call, app: string): seq<int> {
    if c.app == app && c.ok then [c.time] else []
  }

  function Count(ts: seq<int>, lo: int, hi: int): nat {
    if ts == [] then 0
    else Count(ts[..|ts| - 1], lo, hi) + (if lo <= ts[|ts| - 1] <= hi then 1 else 0)
  }

  predicate Sorted(ts: seq<int>) {
    forall i, j :: 0 <= i < j < |ts| ==> ts[i] <= ts[j]
  }

  /** The plain rule: a call at `now` may pass while fewer than ten calls of its application were accepted
      in the closed window of 1000 ms that ends now. */
  predicate MayPass(h: seq<Call>, app: string, now: int) {
    Count(Accepted(h, app), now - WINDOW, now) < LIMIT
  }

  predicate Monotone(h: seq<Call>) {
    forall i, j :: 0 <= i < j < |h| ==> h[i].time <= h[j].time
  }

  /** Every call of the history was decided by the plain rule over the calls before it. */
  predicate Plain(h: seq<Call>) {
    h == [] ||
    (Plain(h[..|h| - 1]) && (h[|h| - 1].ok <==> MayPass(h[..|h| - 1], h[|h| - 1].app, h[|h| - 1].time)))
  }

  // ---------------------------------------------------------------- facts about accepted times

  lemma {:induction false} AcceptedSorted(h: seq<Call>, app: string)
    requires Monotone(h)
    ensures Sorted(Accepted(h, app))
    ensures forall i :: 0 <= i < |Accepted(h, app)| ==> h != [] && Accepted(h, app)[i] <= h[|h| - 1].time
    decreases |h|
  {
    if h != [] {
      AcceptedSorted(h[..|h| - 1], app);
      if |h| > 1 {
        assert h[..|h| - 1][|h| - 2].time <= h[|h| - 1].time;
      }
    }
  }

  lemma {:induction false} CountSplit(a: seq<int>, b: seq<int>, lo: int, hi: int)
    ensures Count(a + b, lo, hi) == Count(a, lo, hi) + Count(b, lo, hi)
    decreases |b|
  {
    if b == [] {
      assert a + b == a;
    } else {
      CountSplit(a, b[..|b| - 1], lo, hi);
      assert (a + b)[..|a + b| - 1] == a + b[..|b| - 1];
    }
  }

  lemma {:induction false} CountOutside(ts: seq<int>, lo: int, hi: int)
    requires forall i :: 0 <= i < |ts| ==> ts[i] < lo || ts[i] > hi
    ensures Count(ts, lo, hi) == 0
    decreases |ts|
  {
    if ts != [] {
      CountOutside(ts[..|ts| - 1], lo, hi);
    }
  }

  lemma {:induction false} CountInside(ts: seq<int>, lo: int, hi: int)
    requires forall i :: 0 <= i < |ts| ==> lo <= ts[i] <= hi
    ensures Count(ts, lo, hi) == |ts|
    decreases |ts|
  {
    if ts != [] {
      CountInside(ts[..|ts| - 1], lo, hi);
    }
  }

  lemma {:induction false} CountNarrower(ts: seq<int>, lo: int, hi: int, lo2: int, hi2: int)
    requires forall i :: 0 <= i < |ts| && lo <= ts[i] <= hi ==> lo2 <= ts[i] <= hi2
    ensures Count(ts, lo, hi) <= Count(ts, lo2, hi2)
    decreases |ts|
  {
    if ts != [] {
      CountNarrower(ts[..|ts| - 1], lo, hi, lo2, hi2);
    }
  }

  // ---------------------------------------------------------------- the limiter

  /** `kept` is what is left of `all` after a prefix of times before `cutoff`. */
  predicate Tail(all: seq<int>, kept: seq<int>, cutoff: int) {
    && |kept| <= |all| && kept == all[|all| - |kept|..]
    && forall i :: 0 <= i < |all| - |kept| ==> all[i] < cutoff
  }

  lemma TailOfTail(all: seq<int>, list: seq<int>, kept: seq<int>, cut1: int, cut2: int)
    requires Tail(all, list, cut1) && Tail(list, kept, cut2) && (cut1 <= cut2 || all == [])
    ensures Tail(all, kept, cut2)
  {
    assert forall i :: |all| - |list| <= i < |all| ==> all[i] == list[i - (|all| - |list|)];
  }

  lemma TailGrows(all: seq<int>, kept: seq<int>, more: seq<int>, cutoff: int)
    requires Tail(all, kept, cutoff)
    ensures Tail(all + more, kept + more, cutoff)
  {
  }

  function List(rate: map<string, seq<int>>, app: string): seq<int> {
    if app in rate then rate[app] else []
  }

  function LastTime(h: seq<Call>, now: int): int {
    if h == [] then now else h[|h| - 1].time
  }

  /** Each list is what is left of its application's accepted times, none of the missing ones recent. */
  ghost predicate Mirrors(rate: map<string, seq<int>>, h: seq<Call>, now: int) {
    forall app :: Tail(Accepted(h, app), List(rate, app), now - WINDOW)
  }

  class RateLimiter {
    var bridgeRate: map<string, seq<int>>
    ghost var calls: seq<Call>

    ghost predicate Valid()
      reads this
    {
      Monotone(calls) && Plain(calls) && Mirrors(bridgeRate, calls, LastTime(calls, 0))
    }

    constructor ()
      ensures Valid() && calls == []
    {
      bridgeRate, calls := map[], [];
    }

    /** Drop the timestamps older than the cutoff from the front. */
    method Prune(timestamps: seq<int>, cutoff: int) returns (kept: seq<int>)
      ensures Tail(timestamps, kept, cutoff)
      ensures kept != [] ==> kept[0] >= cutoff
    {
      kept := timestamps;
      while kept != [] && kept[0] < cutoff
        invariant Tail(timestamps, kept, cutoff)
        decreases |kept|
      {
        kept := kept[1..];
      }
    }

    /** The clock never runs backwards. A call passes exactly by the plain rule over the full history, of which
        the limiter keeps only the recent part, and the history grows by this decision. */
    method CheckBridgeRateLimit(app: string, now: int) returns (ok: bool)
      requires Valid()
      requires calls != [] ==> calls[|calls| - 1].time <= now
      modifies this
      ensures Valid()
      ensures ok <==> MayPass(old(calls), app, now)
      ensures calls == old(calls) + [Call(app, now, ok)]
    {
      var timestamps := Prune(if app in bridgeRate then bridgeRate[app] else [], now - WINDOW);
      ghost var kept := timestamps;
      ok := |timestamps| < LIMIT;
      if ok {
        timestamps := timestamps + [now];
      }
      hide Monotone, Plain, Mirrors, MayPass, Tail;
      Decided(bridgeRate, calls, app, kept, now);
      assert timestamps == kept + AcceptedBy(Call(app, now, ok), app);
      hide AcceptedBy, LastTime, List;
      bridgeRate := bridgeRate[app := timestamps];
      calls := calls + [Call(app, now, ok)];
    }
  }

  /** One decision keeps the pruned lists a mirror of the history, and the history plain. */
  lemma Decided(rate: map<string, seq<int>>, h: seq<Call>, app: string, kept: seq<int>, now: int)
    requires Monotone(h) && Plain(h) && LastTime(h, now) <= now && Mirrors(rate, h, LastTime(h, 0))
    requires Tail(List(rate, app), kept, now - WINDOW) && (kept != [] ==> kept[0] >= now - WINDOW)
    ensures |kept| < LIMIT <==> MayPass(h, app, now)
    ensures var c := Call(app, now, |kept| < LIMIT);
            && Monotone(h + [c]) && Plain(h + [c])
            && Mirrors(rate[app := kept + AcceptedBy(c, app)], h + [c], LastTime(h + [c], 0))
  {
    hide Monotone, Plain, Mirrors, MayPass, Tail;
    ListDecides(rate, h, app, kept, now);
    var c := Call(app, now, |kept| < LIMIT);
    assert LastTime(h, c.time) <= c.time;
    hide LastTime, List;
    HistoryGrows(h, c);
    MirrorsGrow(rate, h, kept, c);
  }

  lemma AcceptedSnoc(h: seq<Call>, c: Call, app: string)
    ensures Accepted(h + [c], app) == Accepted(h, app) + AcceptedBy(c, app)
  {
    assert (h + [c])[..|h|] == h;
  }

  /** The pruned list holds exactly the accepted times the plain rule counts. */
  lemma ListDecides(rate: map<string, seq<int>>, h: seq<Call>, app: string, kept: seq<int>, now: int)
    requires Monotone(h) && LastTime(h, now) <= now && Mirrors(rate, h, LastTime(h, 0))
    requires Tail(List(rate, app), kept, now - WINDOW) && (kept != [] ==> kept[0] >= now - WINDOW)
    ensures |kept| < LIMIT <==> MayPass(h, app, now)
  {
    var all := Accepted(h, app);
    AcceptedSorted(h, app);
    if h != [] {
      TailOfTail(all, List(rate, app), kept, LastTime(h, 0) - WINDOW, now - WINDOW);
    }
    assert Tail(all, kept, now - WINDOW);
    hide Accepted;
    CountKept(all, kept, now);
  }

  lemma MirrorsGrow(rate: map<string, seq<int>>, h: seq<Call>, kept: seq<int>, c: Call)
    requires LastTime(h, c.time) <= c.time && Mirrors(rate, h, LastTime(h, 0))
    requires Tail(List(rate, c.app), kept, c.time - WINDOW)
    ensures Mirrors(rate[c.app := kept + AcceptedBy(c, c.app)], h + [c], LastTime(h + [c], 0))
  {
    hide Tail;
    var rate', cut1, cut2 := rate[c.app := kept + AcceptedBy(c, c.app)], LastTime(h, 0) - WINDOW, c.time - WINDOW;
    forall x ensures Tail(Accepted(h + [c], x), List(rate', x), cut2) {
      AcceptedSnoc(h, c, x);
      var all, list := Accepted(h, x), List(rate, x);
      assert Tail(all, list, cut1);
      assert h == [] ==> all == [];
      hide Accepted;
      var rest := if x == c.app then kept else list;
      if x != c.app {
        TailSelf(list, cut2);
        assert list + [] == list;
      }
      TailOfTail(all, list, rest, cut1, cut2);
      TailGrows(all, rest, AcceptedBy(c, x), cut2);
    }
  }

  lemma TailSelf(list: seq<int>, cutoff: int)
    ensures Tail(list, list, cutoff)
  {
  }

  lemma HistoryGrows(h: seq<Call>, c: Call)
    requires Monotone(h) && Plain(h) && LastTime(h, c.time) <= c.time && (c.ok <==> MayPass(h, c.app, c.time))
    ensures Monotone(h + [c]) && Plain(h + [c])
  {
    hide MayPass;
    assert (h + [c])[..|h|] == h;
  }

  lemma CountKept(all: seq<int>, kept: seq<int>, now: int)
    requires Sorted(all) && Tail(all, kept, now - WINDOW)
    requires forall i :: 0 <= i < |all| ==> all[i] <= now
    requires kept != [] ==> kept[0] >= now - WINDOW
    ensures Count(all, now - WINDOW, now) == |kept|
  {
    hide Count;
    var gone := all[..|all| - |kept|];
    assert all == gone + kept;
    CountSplit(gone, kept, now - WINDOW, now);
    CountOutside(gone, now - WINDOW, now);
    forall i | 0 <= i < |kept| ensures now - WINDOW <= kept[i] <= now {
      assert kept[i] == all[|all| - |kept| + i];
      assert kept[0] == all[|all| - |kept|];
    }
    CountInside(kept, now - WINDOW, now);
  }

  // ---------------------------------------------------------------- what the rule guarantees

  /** No closed window of 1000 ms, wherever it lies, holds more than ten accepted calls of one application. */
  lemma {:induction false} AtMostTenPerWindow(h: seq<Call>, app: string, x: int)
    requires Monotone(h) && Plain(h)
    ensures Count(Accepted(h, app), x, x + 1000) <= 10
    decreases |h|
  {
    if h != [] {
      var p, c := h[..|h| - 1], h[|h| - 1];
      assert h == p + [c] && Monotone(p) && Plain(p) && (c.ok <==> MayPass(p, c.app, c.time));
      hide Accepted, Count, Monotone, Plain, MayPass;
      AtMostTenPerWindow(p, app, x);
      WindowStep(p, c, app, x);
    }
  }

  lemma CountSnoc(ts: seq<int>, x: int, lo: int, hi: int)
    ensures Count(ts + [x], lo, hi) == Count(ts, lo, hi) + (if lo <= x <= hi then 1 else 0)
  {
    assert (ts + [x])[..|ts|] == ts;
  }

  lemma AcceptedBefore(h: seq<Call>, c: Call, app: string)
    requires Monotone(h + [c])
    ensures forall i :: 0 <= i < |Accepted(h, app)| ==> Accepted(h, app)[i] <= c.time
  {
    assert forall i :: 0 <= i < |h| ==> (h + [c])[i] == h[i];
    assert Monotone(h);
    AcceptedSorted(h, app);
    assert h != [] ==> (h + [c])[|h| - 1].time <= (h + [c])[|h|].time;
  }

  lemma WindowStep(h: seq<Call>, c: Call, app: string, x: int)
    requires Monotone(h + [c]) && (c.ok <==> MayPass(h, c.app, c.time))
    requires Count(Accepted(h, app), x, x + WINDOW) <= LIMIT
    ensures Count(Accepted(h + [c], app), x, x + WINDOW) <= LIMIT
  {
    hide Accepted, Count;
    var ts := Accepted(h, app);
    AcceptedSnoc(h, c, app);
    AcceptedBefore(h, c, app);
    if AcceptedBy(c, app) == [] {
      assert ts + [] == ts;
    } else {
      CountSnoc(ts, c.time, x, x + WINDOW);
      if x <= c.time <= x + WINDOW {
        CountNarrower(ts, x, x + WINDOW, c.time - WINDOW, c.time);
      }
    }
  }

  function Of(h: seq<Call>, app: string): seq<Call> {
    if h == [] then []
    else Of(h[..|h| - 1], app) + (if h[|h| - 1].app == app then [h[|h| - 1]] else [])
  }

  lemma {:induction false} AcceptedOf(h: seq<Call>, app: string)
    ensures Accepted(Of(h, app), app) == Accepted(h, app)
    decreases |h|
  {
    if h != [] {
      AcceptedOf(h[..|h| - 1], app);
      if h[|h| - 1].app == app {
        assert Of(h, app)[..|Of(h, app)| - 1] == Of(h[..|h| - 1], app);
      } else {
        assert Of(h, app) == Of(h[..|h| - 1], app);
        assert Accepted(h, app) == Accepted(h[..|h| - 1], app);
      }
    }
  }

  /** Applications do not influence each other: the calls of one, taken alone, got the decisions they would
      have got without all others. */
  lemma {:induction false} AppsIndependent(h: seq<Call>, app: string)
    requires Plain(h)
    ensures Plain(Of(h, app))
    decreases |h|
  {
    if h != [] {
      AppsIndependent(h[..|h| - 1], app);
      AcceptedOf(h[..|h| - 1], app);
      if h[|h| - 1].app == app {
        assert Of(h, app)[..|Of(h, app)| - 1] == Of(h[..|h| - 1], app);
      } else {
        assert Of(h, app) == Of(h[..|h| - 1], app);
      }
    }
  }
}
