/** Fixed-window limiting: a window opens with the first event, counts, and is replaced by the
    first event after it has expired.  The request limiter and the alert throttle are both
    instances; one lemma about admission traces gives the sliding-window bound for both. */
module FixedWindow {
  import opened Wrappers

  /** `strict` windows expire when more than `length` has elapsed, the others when at least
      `length` has.  `countRefused` says whether refused events are counted too. */
  datatype Limiter = Limiter(length: real, strict: bool, cap: int, countRefused: bool)

  datatype Window = Window(start: real, count: nat)

  predicate Expired(lim: Limiter, w: Window, now: real) {
    if lim.strict then now - w.start > lim.length else w.start + lim.length <= now
  }

  predicate Admits(lim: Limiter, st: Option<Window>, now: real) {
    st == None || Expired(lim, st.value, now) || st.value.count < lim.cap
  }

  function Next(lim: Limiter, st: Option<Window>, now: real): Window {
    if st == None || Expired(lim, st.value, now) then Window(now, 1)
    else if st.value.count < lim.cap || lim.countRefused then Window(st.value.start, st.value.count + 1)
    else st.value
  }

  /** The first event of a window is always admitted, so a window admits at least one. */
  function PerWindow(lim: Limiter): nat {
    if lim.cap < 1 then 1 else lim.cap
  }

  // ----- Traces of admitted events --------------------------------------------------------

  datatype Admission = Admission(time: real, start: real)

  /** The admitted ones among events at `times`, each with the start of its window. */
  function Trace(lim: Limiter, st: Option<Window>, times: seq<real>): seq<Admission>
    decreases |times|
  {
    if times == [] then []
    else
      var w := Next(lim, st, times[0]);
      (if Admits(lim, st, times[0]) then [Admission(times[0], w.start)] else [])
        + Trace(lim, Some(w), times[1..])
  }

  ghost predicate Monotone(times: seq<real>) {
    forall i, j :: 0 <= i < j < |times| ==> times[i] <= times[j]
  }

  function Within(tr: seq<Admission>, from: real, to: real): nat {
    if tr == [] then 0 else (if from <= tr[0].time <= to then 1 else 0) + Within(tr[1..], from, to)
  }

  function InWindow(tr: seq<Admission>, start: real): nat {
    if tr == [] then 0 else (if tr[0].start == start then 1 else 0) + InWindow(tr[1..], start)
  }

  /** `later` is admitted in the window of `earlier`, or in a window that opened after
      `earlier` and at least `length` after its window did. */
  ghost predicate Separated(length: real, earlier: Admission, later: Admission) {
    || later.start == earlier.start
    || (earlier.time < later.start && earlier.start + length <= later.start)
  }

  ghost predicate Windowed(tr: seq<Admission>, length: real, perWindow: nat) {
    && (forall i :: 0 <= i < |tr| ==> tr[i].start <= tr[i].time)
    && (forall i, j :: 0 <= i < j < |tr| ==> Separated(length, tr[i], tr[j]))
    && (forall s :: InWindow(tr, s) <= perWindow)
  }

  /** Events of at most two windows fit into a closed interval of one window length. */
  lemma {:induction false} AtMostTwoWindows(tr: seq<Admission>, from: real, to: real, a: real, b: real)
    requires forall i :: 0 <= i < |tr| && from <= tr[i].time <= to ==> tr[i].start == a || tr[i].start == b
    ensures Within(tr, from, to) <= InWindow(tr, a) + InWindow(tr, b)
  {
    if tr != [] {
      assert forall i :: 0 <= i < |tr[1..]| ==> tr[1..][i] == tr[i + 1];
      AtMostTwoWindows(tr[1..], from, to, a, b);
    }
  }

  /** Events of three windows span more than one window length. */
  lemma ThreeWindows(tr: seq<Admission>, length: real, perWindow: nat, x: nat, y: nat, z: nat)
    requires Windowed(tr, length, perWindow) && x < y < z < |tr|
    requires tr[x].start != tr[y].start && tr[y].start != tr[z].start
    ensures tr[z].time > tr[x].time + length
  {
    assert Separated(length, tr[x], tr[y]) && Separated(length, tr[y], tr[z]);
  }

  lemma ThirdWindowIsOutside(tr: seq<Admission>, length: real, perWindow: nat, from: real, i: nat, k: nat, m: nat)
    requires Windowed(tr, length, perWindow) && i < |tr| && k < |tr| && m < |tr|
    requires tr[i].start != tr[k].start && tr[i].start != tr[m].start && tr[k].start != tr[m].start
    ensures !(from <= tr[i].time <= from + length && from <= tr[k].time <= from + length
              && from <= tr[m].time <= from + length)
  {
    var lo, hi := if i < k then i else k, if i < k then k else i;
    if m < lo {
      ThreeWindows(tr, length, perWindow, m, lo, hi);
    } else if m < hi {
      ThreeWindows(tr, length, perWindow, lo, m, hi);
    } else {
      ThreeWindows(tr, length, perWindow, lo, hi, m);
    }
  }

  /** Whatever a fixed window admits, any closed interval of one window length sees at most
      twice the window's cap. */
  lemma SlidingBound(tr: seq<Admission>, length: real, perWindow: nat, from: real)
    requires Windowed(tr, length, perWindow)
    ensures Within(tr, from, from + length) <= 2 * perWindow
  {
    var to := from + length;
    if i :| 0 <= i < |tr| && from <= tr[i].time <= to {
      var a := tr[i].start;
      if k :| 0 <= k < |tr| && from <= tr[k].time <= to && tr[k].start != a {
        var b := tr[k].start;
        forall m | 0 <= m < |tr| && from <= tr[m].time <= to ensures tr[m].start == a || tr[m].start == b {
          if tr[m].start != a && tr[m].start != b {
            ThirdWindowIsOutside(tr, length, perWindow, from, i, k, m);
          }
        }
        AtMostTwoWindows(tr, from, to, a, b);
      } else {
        AtMostTwoWindows(tr, from, to, a, a);
      }
    } else {
      AtMostTwoWindows(tr, from, to, 0.0, 0.0);
    }
  }

  // ----- Limiters produce windowed traces ---------------------------------------------------

  /** The window lengths for which distinct windows open at distinct times. */
  predicate Proper(lim: Limiter) {
    if lim.strict then lim.length >= 0.0 else lim.length > 0.0
  }

  /** The trace from an open window: what is admitted belongs to it, within its remaining
      room, or to windows that open after it has expired. */
  ghost predicate Continues(lim: Limiter, st: Option<Window>, tr: seq<Admission>) {
    && Windowed(tr, lim.length, PerWindow(lim))
    && (st.Some? ==>
          && (forall i :: 0 <= i < |tr| ==> tr[i].start == st.value.start || Expired(lim, st.value, tr[i].start))
          && (InWindow(tr, st.value.start) == 0 || InWindow(tr, st.value.start) + st.value.count <= PerWindow(lim)))
  }

  lemma {:induction false} TraceIsWindowed(lim: Limiter, st: Option<Window>, times: seq<real>)
    requires Proper(lim) && Monotone(times)
    requires st.Some? && times != [] ==> st.value.start <= times[0]
    requires st.Some? ==> st.value.count >= 1
    ensures Continues(lim, st, Trace(lim, st, times))
    ensures forall i :: 0 <= i < |Trace(lim, st, times)| && times != [] ==> times[0] <= Trace(lim, st, times)[i].time
    decreases |times|
  {
    if times != [] {
      var w := Next(lim, st, times[0]);
      var rest := times[1..];
      assert forall i :: 0 <= i < |rest| ==> rest[i] == times[i + 1];
      TraceIsWindowed(lim, Some(w), rest);
      var tail := Trace(lim, Some(w), rest);
      forall i | 0 <= i < |tail| ensures times[0] <= tail[i].time {
        assert rest != [];
      }
      if Admits(lim, st, times[0]) {
        PrependAdmission(lim, st, times[0], tail);
      } else {
        assert Trace(lim, st, times) == tail;
      }
    }
  }

  lemma {:induction false} NoneInWindow(tr: seq<Admission>, start: real)
    requires forall i :: 0 <= i < |tr| ==> tr[i].start != start
    ensures InWindow(tr, start) == 0
  {
    if tr != [] {
      NoneInWindow(tr[1..], start);
    }
  }

  lemma PrependAdmission(lim: Limiter, st: Option<Window>, now: real, tail: seq<Admission>)
    requires Proper(lim) && Admits(lim, st, now)
    requires st.Some? ==> st.value.start <= now && st.value.count >= 1
    requires Continues(lim, Some(Next(lim, st, now)), tail)
    requires forall i :: 0 <= i < |tail| ==> now <= tail[i].time
    ensures Continues(lim, st, [Admission(now, Next(lim, st, now).start)] + tail)
  {
    var w := Next(lim, st, now);
    var x := Admission(now, w.start);
    var tr := [x] + tail;
    assert tr[1..] == tail;
    forall i, j | 0 <= i < j < |tr| ensures Separated(lim.length, tr[i], tr[j]) {
      assert tr[j] == tail[j - 1];
      if i > 0 {
        assert tr[i] == tail[i - 1];
      }
    }
    forall s ensures InWindow(tr, s) <= PerWindow(lim) {
      assert InWindow(tail, s) <= PerWindow(lim);
    }
    if st.Some? && Expired(lim, st.value, now) {
      NoneInWindow(tail, st.value.start);
    }
  }

  /** Under a monotone clock, any closed interval of one window length sees at most
      2 * max(1, cap) admitted events. */
  lemma LimiterSlidingBound(lim: Limiter, times: seq<real>, from: real)
    requires Proper(lim) && Monotone(times)
    ensures Within(Trace(lim, None, times), from, from + lim.length) <= 2 * PerWindow(lim)
  {
    TraceIsWindowed(lim, None, times);
    SlidingBound(Trace(lim, None, times), lim.length, PerWindow(lim), from);
  }

  // ----- Decisions inside one window ----------------------------------------------------------

  function Decisions(lim: Limiter, st: Option<Window>, times: seq<real>): seq<bool>
    decreases |times|
  {
    if times == [] then []
    else [Admits(lim, st, times[0])] + Decisions(lim, Some(Next(lim, st, times[0])), times[1..])
  }

  /** Among the events of one window exactly the first max(1, cap) are admitted. */
  lemma FirstOfWindowAdmitted(lim: Limiter, st: Option<Window>, times: seq<real>)
    requires times != [] && (st == None || Expired(lim, st.value, times[0]))
    requires forall i :: 0 < i < |times| ==> !Expired(lim, Window(times[0], 1), times[i])
    ensures |Decisions(lim, st, times)| == |times|
    ensures forall i :: 0 <= i < |times| ==> (Decisions(lim, st, times)[i] <==> i < PerWindow(lim))
  {
    assert forall i :: 0 <= i < |times[1..]| ==> times[1..][i] == times[i + 1];
    DecisionsInOpenWindow(lim, Window(times[0], 1), times[1..]);
  }

  lemma {:induction false} DecisionsInOpenWindow(lim: Limiter, w: Window, times: seq<real>)
    requires w.count >= 1 && forall i :: 0 <= i < |times| ==> !Expired(lim, w, times[i])
    ensures |Decisions(lim, Some(w), times)| == |times|
    ensures forall i :: 0 <= i < |times| ==> (Decisions(lim, Some(w), times)[i] <==> i + w.count < lim.cap)
    decreases |times|
  {
    if times != [] {
      var v := Next(lim, Some(w), times[0]);
      assert forall i :: 0 <= i < |times[1..]| ==> times[1..][i] == times[i + 1];
      DecisionsInOpenWindow(lim, v, times[1..]);
      var ds := Decisions(lim, Some(v), times[1..]);
      assert forall i :: 0 < i < |times| ==> Decisions(lim, Some(w), times)[i] == ds[i - 1];
    }
  }
}
