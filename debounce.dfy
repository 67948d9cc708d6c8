/** The trailing-edge debounce of `debouncedUpdatePhaseItem`: one shared timer slot
    (`debouncedUpdate.current`) that every call clears and re-arms for 500 ms. Time is an
    abstract millisecond clock supplied with each event. */
module Debounce {
  import opened Base

  /** The `setTimeout` delay, in milliseconds. */
  const Delay: int := 500

  /** A live timer: when it fires and the call it will make. */
  datatype Timer<T> = Timer(due: int, payload: T)

  /** The slot and the calls the fired timers have made so far, oldest first. */
  datatype Slot<T> = Slot(current: Option<Timer<T>>, sent: seq<T>)

  /** A call: the pending timer, if any, is cancelled and a new one is armed. */
  function Schedule<T>(s: Slot<T>, now: int, payload: T): (r: Slot<T>)
    ensures r.current == Some(Timer(now + Delay, payload))
    ensures r.sent == s.sent
  {
    Slot(Some(Timer(now + Delay, payload)), s.sent)
  }

  /** The clock reaches `now`: a pending timer that is due fires exactly once. */
  function Elapse<T>(s: Slot<T>, now: int): (r: Slot<T>)
    ensures s.current.Some? && s.current.value.due <= now ==>
      r.current.None? && r.sent == s.sent + [s.current.value.payload]
    ensures !(s.current.Some? && s.current.value.due <= now) ==> r == s
  {
    if s.current.Some? && s.current.value.due <= now then Slot(None, s.sent + [s.current.value.payload])
    else s
  }

  /** What happens at a moment of the clock: a call, or only time passing. */
  datatype Event<T> = Call(at: int, payload: T) | Wait(at: int)

  /** Timers due by the event's time fire before the event itself is handled. */
  function Step<T>(s: Slot<T>, ev: Event<T>): Slot<T> {
    var t := Elapse(s, ev.at);
    if ev.Call? then Schedule(t, ev.at, ev.payload) else t
  }

  function Run<T>(s: Slot<T>, evs: seq<Event<T>>): Slot<T>
    decreases |evs|
  {
    if evs == [] then s else Run(Step(s, evs[0]), evs[1..])
  }

  /** A burst: one or more calls, each less than `Delay` after the one before. */
  predicate IsBurst<T>(evs: seq<Event<T>>) {
    && |evs| > 0
    && (forall i :: 0 <= i < |evs| ==> evs[i].Call?)
    && (forall i :: 0 < i < |evs| ==> evs[i - 1].at <= evs[i].at < evs[i - 1].at + Delay)
  }

  /** During a burst nothing is sent and the slot always holds the latest call,
      due `Delay` after it, provided no earlier timer was due when the burst began. */
  lemma {:induction false} BurstKeepsLatest<T>(s: Slot<T>, evs: seq<Event<T>>)
    requires IsBurst(evs)
    requires s.current.None? || evs[0].at < s.current.value.due
    ensures var last := evs[|evs| - 1];
      Run(s, evs) == Slot(Some(Timer(last.at + Delay, last.payload)), s.sent)
    decreases |evs|
  {
    var t := Step(s, evs[0]);
    assert t == Slot(Some(Timer(evs[0].at + Delay, evs[0].payload)), s.sent);
    if |evs| > 1 {
      var rest := evs[1..];
      assert IsBurst(rest) by {
        forall i | 0 < i < |rest| ensures rest[i - 1].at <= rest[i].at < rest[i - 1].at + Delay {
          assert rest[i - 1] == evs[i] && rest[i] == evs[i + 1];
        }
      }
      assert rest[0] == evs[1];
      BurstKeepsLatest(t, rest);
      assert rest[|rest| - 1] == evs[|evs| - 1];
    }
  }

  /** A burst followed by a quiet period of at least `Delay` sends exactly one call,
      the last one, and leaves the slot empty. */
  lemma BurstCoalesces<T>(s: Slot<T>, evs: seq<Event<T>>, quiet: int)
    requires IsBurst(evs)
    requires s.current.None? || evs[0].at < s.current.value.due
    requires quiet >= evs[|evs| - 1].at + Delay
    ensures Run(s, evs + [Wait(quiet)]) == Slot(None, s.sent + [evs[|evs| - 1].payload])
  {
    RunAppend(s, evs, [Wait(quiet)]);
    BurstKeepsLatest(s, evs);
  }

  lemma {:induction false} RunAppend<T>(s: Slot<T>, a: seq<Event<T>>, b: seq<Event<T>>)
    ensures Run(s, a + b) == Run(Run(s, a), b)
    decreases |a|
  {
    if a == [] {
      assert a + b == b;
    } else {
      assert (a + b)[0] == a[0] && (a + b)[1..] == a[1..] + b;
      RunAppend(Step(s, a[0]), a[1..], b);
    }
  }
}
