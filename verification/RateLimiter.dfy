/** The request hook's per-address buckets, as an instance of the fixed window. */
module RateLimiter {
  import opened Wrappers
  import opened FixedWindow

  const ONE_MINUTE_MS := 60000.0
  const MAX_REQUESTS_PER_MINUTE := 300

  const PER_MINUTE := Limiter(ONE_MINUTE_MS, false, MAX_REQUESTS_PER_MINUTE, true)

  datatype RateBucket = RateBucket(count: nat, resetAt: real)

  class SecurityPlugin {
    var buckets: map<string, RateBucket>

    constructor ()
      ensures Windows() == map[]
    {
      buckets := map[];
    }

    /** The buckets, read as windows: one that resets at t opened a minute before t. */
    ghost function Windows(): map<string, Window>
      reads this
    {
      map key | key in buckets :: Window(buckets[key].resetAt - ONE_MINUTE_MS, buckets[key].count)
    }

    method OnRequest(key: string, now: real) returns (refused: bool)
      modifies this
      ensures refused == !Admits(PER_MINUTE, Lookup(old(Windows()), key), now)
      ensures Windows() == old(Windows())[key := Next(PER_MINUTE, Lookup(old(Windows()), key), now)]
    {
      if key !in buckets || buckets[key].resetAt <= now {
        buckets := buckets[key := RateBucket(1, now + ONE_MINUTE_MS)];
        return false;
      }
      var existing := buckets[key];
      buckets := buckets[key := existing.(count := existing.count + 1)];
      refused := buckets[key].count > MAX_REQUESTS_PER_MINUTE;
    }
  }

  // ----- Whole request logs ------------------------------------------------------------------

  datatype Request = Request(key: string, time: real)

  /** Which requests of a log are let through, starting from the given windows. */
  function Serve(m: map<string, Window>, log: seq<Request>): seq<bool>
    decreases |log|
  {
    if log == [] then []
    else
      var st := Lookup(m, log[0].key);
      [Admits(PER_MINUTE, st, log[0].time)]
        + Serve(m[log[0].key := Next(PER_MINUTE, st, log[0].time)], log[1..])
  }

  function TimesOf(log: seq<Request>, key: string): seq<real> {
    if log == [] then []
    else (if log[0].key == key then [log[0].time] else []) + TimesOf(log[1..], key)
  }

  /** The decisions on the requests of one key, in order. */
  function DecisionsFor(log: seq<Request>, served: seq<bool>, key: string): seq<bool>
    requires |served| == |log|
  {
    if log == [] then []
    else (if log[0].key == key then [served[0]] else []) + DecisionsFor(log[1..], served[1..], key)
  }

  /** How many requests of `key` were let through at times in the closed interval. */
  function AdmittedWithin(log: seq<Request>, served: seq<bool>, key: string, from: real, to: real): nat
    requires |served| == |log|
  {
    if log == [] then 0
    else
      var here := log[0].key == key && served[0] && from <= log[0].time <= to;
      (if here then 1 else 0) + AdmittedWithin(log[1..], served[1..], key, from, to)
  }

  /** Keys do not interfere: what one key sees in any log is what a limiter fed with its own
      requests alone decides. */
  lemma {:induction false} KeysAreIndependent(m: map<string, Window>, log: seq<Request>, key: string,
                                              from: real, to: real)
    ensures |Serve(m, log)| == |log|
    ensures DecisionsFor(log, Serve(m, log), key) == Decisions(PER_MINUTE, Lookup(m, key), TimesOf(log, key))
    ensures AdmittedWithin(log, Serve(m, log), key, from, to)
         == Within(Trace(PER_MINUTE, Lookup(m, key), TimesOf(log, key)), from, to)
    decreases |log|
  {
    if log != [] {
      var st := Lookup(m, log[0].key);
      var w := Next(PER_MINUTE, st, log[0].time);
      var next := m[log[0].key := w];
      KeysAreIndependent(next, log[1..], key, from, to);
      var served := Serve(m, log);
      assert served[1..] == Serve(next, log[1..]);
      if log[0].key == key {
        var rest := TimesOf(log[1..], key);
        var times := TimesOf(log, key);
        assert times[0] == log[0].time && times[1..] == rest;
        var tail := Trace(PER_MINUTE, Some(w), rest);
        var x := Admission(times[0], w.start);
        assert ([x] + tail)[1..] == tail;
        assert Trace(PER_MINUTE, st, times) == if served[0] then [x] + tail else [] + tail;
        assert [] + tail == tail;
      } else {
        assert Lookup(next, key) == Lookup(m, key);
        assert TimesOf(log, key) == TimesOf(log[1..], key);
      }
    }
  }

  ghost predicate MonotoneLog(log: seq<Request>) {
    forall i, j :: 0 <= i < j < |log| ==> log[i].time <= log[j].time
  }

  lemma {:induction false} TimesOfMonotone(log: seq<Request>, key: string)
    requires MonotoneLog(log)
    ensures Monotone(TimesOf(log, key))
    ensures log != [] ==> forall i :: 0 <= i < |TimesOf(log, key)| ==> log[0].time <= TimesOf(log, key)[i]
  {
    if log != [] {
      assert forall i :: 0 <= i < |log[1..]| ==> log[1..][i] == log[i + 1];
      TimesOfMonotone(log[1..], key);
      var rest := TimesOf(log[1..], key);
      forall i | 0 <= i < |rest| ensures log[0].time <= rest[i] {
        assert log[1..] != [];
      }
      var times := TimesOf(log, key);
      if log[0].key == key {
        assert forall i :: 0 < i < |times| ==> times[i] == rest[i - 1];
      } else {
        assert times == rest;
      }
    }
  }

  /** Under a monotone clock any closed minute lets at most 600 requests of a key through. */
  lemma AtMostSixHundredPerMinute(log: seq<Request>, key: string, from: real)
    requires MonotoneLog(log)
    ensures |Serve(map[], log)| == |log|
    ensures AdmittedWithin(log, Serve(map[], log), key, from, from + 60000.0) <= 600
  {
    KeysAreIndependent(map[], log, key, from, from + ONE_MINUTE_MS);
    TimesOfMonotone(log, key);
    LimiterSlidingBound(PER_MINUTE, TimesOf(log, key), from);
  }

  /** Of the requests of one key that fall into one window, exactly the first 300 are let
      through, whatever other keys do in between. */
  lemma FirstThreeHundredAreServed(m: map<string, Window>, log: seq<Request>, key: string)
    requires var times := TimesOf(log, key);
      && times != []
      && (key !in m || m[key].start + 60000.0 <= times[0])
      && (forall i :: 0 < i < |times| ==> times[i] < times[0] + 60000.0)
    ensures |Serve(m, log)| == |log|
    ensures var decisions := DecisionsFor(log, Serve(m, log), key);
      && |decisions| == |TimesOf(log, key)|
      && (forall i :: 0 <= i < |decisions| ==> (decisions[i] <==> i < 300))
  {
    KeysAreIndependent(m, log, key, 0.0, 0.0);
    FirstOfWindowAdmitted(PER_MINUTE, Lookup(m, key), TimesOf(log, key));
  }

  /** The window after a sequence of requests of one key. */
  function WindowAfter(st: Option<Window>, times: seq<real>): Option<Window>
    decreases |times|
  {
    if times == [] then st else WindowAfter(Some(Next(PER_MINUTE, st, times[0])), times[1..])
  }

  /** A window opens with its first request, lasts sixty seconds to the millisecond, and counts every
      request that falls into it, refused ones included. */
  lemma {:induction false} WindowCountsAll(st: Option<Window>, times: seq<real>)
    requires times != [] && (st == None || st.value.start + 60000.0 <= times[0])
    requires forall i :: 0 < i < |times| ==> times[i] < times[0] + 60000.0
    ensures WindowAfter(st, times) == Some(Window(times[0], |times|))
    decreases |times|
  {
    RunningWindowCounts(Window(times[0], 1), times[1..]);
  }

  lemma {:induction false} RunningWindowCounts(w: Window, times: seq<real>)
    requires forall i :: 0 <= i < |times| ==> times[i] < w.start + 60000.0
    ensures WindowAfter(Some(w), times) == Some(Window(w.start, w.count + |times|))
    decreases |times|
  {
    if times != [] {
      RunningWindowCounts(Window(w.start, w.count + 1), times[1..]);
    }
  }
}
