/**
 * The helpers of `utils/index.ts` that carry logic: the size guard, defaults and settlement race
 * of `getBase64`, the `throttle` and `debounce` wrappers, and the unit choice of
 * `formatFileSize`.
 *
 * Asynchrony is a sequence of events in arrival order: the `FileReader` callbacks and the timeout
 * for `getBase64`, calls and timer expiry for `debounce`.  The clock (`Date.now()`) is the time
 * carried by each throttled call.
 */
module Utils {
  import opened Wrappers
  import opened Types

  // ---------------------------------------------------------------------------------------------
  // getBase64
  // ---------------------------------------------------------------------------------------------

  const DefaultTimeout: int := 30000
  const DefaultMaxSize: int := 10 * 1024 * 1024

  /** Destructuring defaults apply only to a field left undefined; an explicit 0 is kept. */
  function TimeoutOf(o: GetBase64Options): int
  {
    o.timeout.GetOr(DefaultTimeout)
  }

  function MaxSizeOf(o: GetBase64Options): int
  {
    o.maxSize.GetOr(DefaultMaxSize)
  }

  /** What can happen after the read has started. */
  datatype ReaderEvent = Loaded(data: string) | ReadError | TimerFired

  /** Why the promise rejects. */
  datatype Failure = TooLarge(maxSize: int) | TimedOut | ReadFailed

  datatype Settlement = Resolved(data: string) | Rejected(failure: Failure) | Pending

  /** Whether `readAsDataURL` was called, whether the timeout was armed, and how the promise settled. */
  datatype Reading = Reading(readStarted: bool, timerArmed: bool, settlement: Settlement)

  /** Whether an event settles the promise: a timer event only when a timer was armed. */
  predicate Settles(armed: bool, e: ReaderEvent)
  {
    !e.TimerFired? || armed
  }

  /** How a settling event settles the promise. */
  function SettleBy(e: ReaderEvent): Settlement
  {
    match e
    case Loaded(data) => Resolved(data)
    case ReadError => Rejected(ReadFailed)
    case TimerFired => Rejected(TimedOut)
  }

  /** The first settling event settles the promise; later ones find it settled. */
  function Race(armed: bool, events: seq<ReaderEvent>): (s: Settlement)
    ensures !(s.Rejected? && s.failure.TooLarge?)
    ensures s.Rejected? && s.failure.TimedOut? ==> armed
    decreases |events|
  {
    if events == [] then Pending
    else if Settles(armed, events[0]) then SettleBy(events[0])
    else Race(armed, events[1..])
  }

  /** `getBase64(file, options)` for a file of `size` bytes, with the reader and timer events `events`. */
  function GetBase64(size: nat, o: GetBase64Options, events: seq<ReaderEvent>): Reading
  {
    if size > MaxSizeOf(o) then Reading(false, false, Rejected(TooLarge(MaxSizeOf(o))))
    else
      var armed := TimeoutOf(o) > 0;
      Reading(true, armed, Race(armed, events))
  }

  /**
   * An empty options object reads with a 30-second timeout and a 10 MiB limit; a field that is
   * given, even as 0, is used as given.
   */
  lemma Defaults(t: int, m: int)
    ensures TimeoutOf(GetBase64Options(None, None)) == 30000
    ensures MaxSizeOf(GetBase64Options(None, None)) == 10485760
    ensures TimeoutOf(GetBase64Options(Some(t), None)) == t
    ensures MaxSizeOf(GetBase64Options(None, Some(m))) == m
  {
  }

  /**
   * A file larger than the limit is rejected before any read starts or timer is armed; a file of
   * exactly the limit is read.  Once a read starts, the timer is armed iff the timeout is positive.
   */
  lemma SizeGuard(size: nat, o: GetBase64Options, events: seq<ReaderEvent>)
    ensures var r := GetBase64(size, o, events);
            && (r.settlement == Rejected(TooLarge(MaxSizeOf(o))) <==> size > MaxSizeOf(o))
            && (size > MaxSizeOf(o) ==> !r.readStarted && !r.timerArmed)
            && (size <= MaxSizeOf(o) ==> r.readStarted && (r.timerArmed <==> TimeoutOf(o) > 0))
  {
  }

  /**
   * The promise settles by the first settling event: it stays pending iff no event settles it,
   * and otherwise it settles as that first event says.
   */
  lemma {:induction false} FirstSettlerWins(armed: bool, events: seq<ReaderEvent>, k: nat)
    requires k < |events| && Settles(armed, events[k])
    requires forall j :: 0 <= j < k ==> !Settles(armed, events[j])
    ensures Race(armed, events) == SettleBy(events[k])
    decreases k
  {
    if k > 0 {
      assert !Settles(armed, events[0]);
      FirstSettlerWins(armed, events[1..], k - 1);
    }
  }

  lemma {:induction false} PendingIff(armed: bool, events: seq<ReaderEvent>)
    ensures Race(armed, events) == Pending <==> forall k :: 0 <= k < |events| ==> !Settles(armed, events[k])
    decreases |events|
  {
    if events != [] {
      PendingIff(armed, events[1..]);
      if !Settles(armed, events[0]) {
        assert forall k :: 1 <= k < |events| ==> events[k] == events[1..][k - 1];
      }
    }
  }

  /** A settled promise stays settled: events arriving later change nothing. */
  lemma {:induction false} SettlesOnce(armed: bool, events: seq<ReaderEvent>, later: seq<ReaderEvent>)
    requires Race(armed, events) != Pending
    ensures Race(armed, events + later) == Race(armed, events)
    decreases |events|
  {
    assert events != [];
    if !Settles(armed, events[0]) {
      assert (events + later)[1..] == events[1..] + later;
      SettlesOnce(armed, events[1..], later);
    }
  }

  // ---------------------------------------------------------------------------------------------
  // throttle
  // ---------------------------------------------------------------------------------------------

  /** The closure state of a throttled function: the time of the last call that ran. */
  datatype Throttle = Throttle(lastTime: int)

  const ThrottleInitial: Throttle := Throttle(0)

  datatype Throttled = Throttled(state: Throttle, ran: seq<int>)

  /** One call at time `now`: it runs iff at least `limit` has passed since the last call that ran. */
  function ThrottleCall(t: Throttle, limit: int, now: int): Throttled
  {
    if now - t.lastTime >= limit then Throttled(Throttle(now), [now]) else Throttled(t, [])
  }

  /** Calls at the times `times`, in order; `ran` lists the times of the calls that ran. */
  function ThrottleRun(t: Throttle, limit: int, times: seq<int>): Throttled
    decreases |times|
  {
    if times == [] then Throttled(t, [])
    else
      var first := ThrottleCall(t, limit, times[0]);
      var rest := ThrottleRun(first.state, limit, times[1..]);
      Throttled(rest.state, first.ran + rest.ran)
  }

  /** Each time is at least `limit` after the one before it, the first at least `limit` after `prev`. */
  predicate Spaced(prev: int, limit: int, xs: seq<int>)
    decreases |xs|
  {
    xs == [] || (xs[0] - prev >= limit && Spaced(xs[0], limit, xs[1..]))
  }

  /** A call runs iff `now - lastTime >= limit`; only a call that runs moves `lastTime`. */
  lemma ThrottleIff(t: Throttle, limit: int, now: int)
    ensures var r := ThrottleCall(t, limit, now);
            && (r.ran != [] <==> now - t.lastTime >= limit)
            && r.state == (if r.ran != [] then Throttle(now) else t)
  {
  }

  /**
   * Over any sequence of calls, the calls that run are spaced at least `limit` apart, the first at
   * least `limit` after the last run before the sequence; `lastTime` ends at the last that ran.
   */
  lemma {:induction false} ThrottleSpaced(t: Throttle, limit: int, times: seq<int>)
    ensures var r := ThrottleRun(t, limit, times);
            && Spaced(t.lastTime, limit, r.ran)
            && r.state.lastTime == (if r.ran == [] then t.lastTime else r.ran[|r.ran| - 1])
    decreases |times|
  {
    if times != [] {
      var first := ThrottleCall(t, limit, times[0]);
      var rest := ThrottleRun(first.state, limit, times[1..]);
      ThrottleSpaced(first.state, limit, times[1..]);
      if first.ran != [] {
        assert (first.ran + rest.ran)[1..] == rest.ran;
      } else {
        assert first.ran + rest.ran == rest.ran;
      }
    }
  }

  /** Since `lastTime` starts at 0, the first call runs iff the clock reads at least `limit`. */
  lemma ThrottleFirstCall(limit: int, now: int)
    ensures ThrottleCall(ThrottleInitial, limit, now).ran != [] <==> now >= limit
  {
  }

  // ---------------------------------------------------------------------------------------------
  // debounce
  // ---------------------------------------------------------------------------------------------

  /** The closure state of a debounced function: the arguments of the call its timer will make. */
  datatype Debouncer<A> = Debouncer(pending: Option<A>)

  /** A call of the debounced function, or the delay passing with no call in between. */
  datatype DebounceEvent<A> = Invoke(args: A) | Elapse

  datatype Debounced<A> = Debounced(state: Debouncer<A>, fired: seq<A>)

  /** A call replaces the pending call; the delay passing makes the pending call, if any. */
  function DebounceStep<A>(d: Debouncer<A>, e: DebounceEvent<A>): Debounced<A>
  {
    match e
    case Invoke(args) => Debounced(Debouncer(Some(args)), [])
    case Elapse =>
      Debounced(Debouncer(None), if d.pending.Some? then [d.pending.value] else [])
  }

  function DebounceRun<A>(d: Debouncer<A>, events: seq<DebounceEvent<A>>): Debounced<A>
    decreases |events|
  {
    if events == [] then Debounced(d, [])
    else
      var first := DebounceStep(d, events[0]);
      var rest := DebounceRun(first.state, events[1..]);
      Debounced(rest.state, first.fired + rest.fired)
  }

  /** The number of calls among the events. */
  function Invocations<A>(events: seq<DebounceEvent<A>>): nat
    decreases |events|
  {
    if events == [] then 0 else (if events[0].Invoke? then 1 else 0) + Invocations(events[1..])
  }

  /** A burst of calls. */
  function Burst<A>(args: seq<A>): (events: seq<DebounceEvent<A>>)
    ensures |events| == |args|
    ensures forall k :: 0 <= k < |args| ==> events[k] == Invoke(args[k])
    decreases |args|
  {
    if args == [] then [] else [Invoke(args[0])] + Burst(args[1..])
  }

  /** A burst of calls makes nothing yet and leaves the last call's arguments pending. */
  lemma {:induction false} BurstPending<A>(d: Debouncer<A>, args: seq<A>)
    requires args != []
    ensures DebounceRun(d, Burst(args)) == Debounced(Debouncer(Some(args[|args| - 1])), [])
    decreases |args|
  {
    var events := Burst(args);
    assert events[1..] == Burst(args[1..]);
    if |args| > 1 {
      BurstPending(Debouncer(Some(args[0])), args[1..]);
    } else {
      assert events[1..] == [];
    }
  }

  /** After a burst of calls and the delay, exactly one call is made, with the latest arguments. */
  lemma DebounceLatest<A>(d: Debouncer<A>, args: seq<A>)
    requires args != []
    ensures DebounceRun(d, Burst(args) + [Elapse]).fired == [args[|args| - 1]]
    ensures DebounceRun(d, Burst(args) + [Elapse]).state.pending == None
  {
    BurstPending(d, args);
    DebounceAppend(d, Burst(args), [Elapse]);
  }

  lemma {:induction false} DebounceAppend<A>(d: Debouncer<A>, xs: seq<DebounceEvent<A>>,
                                             ys: seq<DebounceEvent<A>>)
    ensures var a := DebounceRun(d, xs);
            var b := DebounceRun(a.state, ys);
            DebounceRun(d, xs + ys) == Debounced(b.state, a.fired + b.fired)
    decreases |xs|
  {
    if xs == [] {
      assert xs + ys == ys;
    } else {
      assert (xs + ys)[1..] == xs[1..] + ys;
      DebounceAppend(DebounceStep(d, xs[0]).state, xs[1..], ys);
    }
  }

  /** Calls are never made twice: no more calls are made than were requested (plus one pending). */
  lemma {:induction false} DebounceFiresAtMostOnce<A>(d: Debouncer<A>, events: seq<DebounceEvent<A>>)
    ensures var r := DebounceRun(d, events);
            |r.fired| + (if r.state.pending.Some? then 1 else 0)
              <= Invocations(events) + (if d.pending.Some? then 1 else 0)
    decreases |events|
  {
    if events != [] {
      DebounceFiresAtMostOnce(DebounceStep(d, events[0]).state, events[1..]);
    }
  }

  // ---------------------------------------------------------------------------------------------
  // formatFileSize
  // ---------------------------------------------------------------------------------------------

  /** The unit table. */
  const Units: seq<string> := ["B", "KB", "MB", "GB"]

  function Pow1024(i: nat): (p: nat)
    ensures p >= 1
  {
    if i == 0 then 1 else 1024 * Pow1024(i - 1)
  }

  /** `floor(log(bytes) / log(1024))`, on exact arithmetic: the `i` with `1024^i <= bytes < 1024^(i+1)`. */
  function UnitIndex(bytes: nat): (i: nat)
    requires bytes >= 1
    ensures Pow1024(i) <= bytes < Pow1024(i + 1)
    decreases bytes
  {
    if bytes < 1024 then 0
    else
      var j := UnitIndex(bytes / 1024);
      assert Pow1024(j + 1) <= bytes by {
        assert 1024 * (bytes / 1024) <= bytes;
      }
      assert bytes < Pow1024(j + 2) by {
        assert bytes < 1024 * (bytes / 1024 + 1);
        assert bytes / 1024 + 1 <= Pow1024(j + 1);
      }
      j + 1
  }

  /**
   * The label of a byte count: the count scaled to the chosen unit, and the unit's name.  An index
   * past the four-entry table reads `sizes[i]` as `undefined`, which string concatenation prints.
   */
  datatype SizeLabel = SizeLabel(value: real, unit: string)

  function FormatFileSize(bytes: nat): SizeLabel
  {
    if bytes == 0 then SizeLabel(0.0, "B")
    else
      var i := UnitIndex(bytes);
      SizeLabel(bytes as real / Pow1024(i) as real, if i < |Units| then Units[i] else "undefined")
  }

  /** The unit index is the only `i` with `1024^i <= bytes < 1024^(i+1)`. */
  lemma {:induction false} UnitIndexUnique(bytes: nat, i: nat)
    requires bytes >= 1
    requires Pow1024(i) <= bytes < Pow1024(i + 1)
    ensures UnitIndex(bytes) == i
  {
    var j := UnitIndex(bytes);
    if j < i {
      PowMono(j + 1, i);
      assert false;
    } else if i < j {
      PowMono(i + 1, j);
      assert false;
    }
  }

  lemma {:induction false} PowMono(a: nat, b: nat)
    requires a <= b
    ensures Pow1024(a) <= Pow1024(b)
    decreases b - a
  {
    if a < b {
      PowMono(a, b - 1);
    }
  }

  /**
   * 0 is `0 B`; any other count is shown in `[1, 1024)` of its unit, and from `1024^4` bytes on,
   * past the table, the unit reads `undefined`.
   */
  lemma FormatFileSizeLabel(bytes: nat)
    ensures bytes == 0 ==> FormatFileSize(bytes) == SizeLabel(0.0, "B")
    ensures bytes > 0 ==> 1.0 <= FormatFileSize(bytes).value < 1024.0
    ensures bytes > 0 ==> (FormatFileSize(bytes).unit == "undefined" <==> bytes >= Pow1024(4))
  {
    if bytes > 0 {
      var i := UnitIndex(bytes);
      assert Pow1024(i + 1) == 1024 * Pow1024(i);
      ScaledInRange(bytes as real, Pow1024(i) as real);
      if i < 4 {
        PowMono(i + 1, 4);
      } else {
        PowMono(4, i);
      }
    }
  }

  lemma ScaledInRange(b: real, p: real)
    requires 0.0 < p <= b < 1024.0 * p
    ensures 1.0 <= b / p < 1024.0
  {
    var q := b / p;
    assert q * p == b;
    assert (q - 1024.0) * p == q * p - 1024.0 * p;
    assert (q - 1.0) * p == q * p - p;
    if q >= 1024.0 || q < 1.0 {
      assert false;
    }
  }

  /** Examples: 1536 bytes is 1.5 KB, and one tebibyte falls off the table. */
  lemma FormatFileSizeExamples()
    ensures FormatFileSize(1536) == SizeLabel(1.5, "KB")
    ensures FormatFileSize(1024 * 1024 * 1024 * 1024).unit == "undefined"
  {
    UnitIndexUnique(1536, 1);
    UnitIndexUnique(1024 * 1024 * 1024 * 1024, 4);
  }
}
