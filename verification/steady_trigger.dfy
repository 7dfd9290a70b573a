/**
 * The steady-trigger frontend: run control sets two flags, a trigger thread
 * polls an elapsed-time check and fires the DIO board once per period, and
 * the MIDAS readout side observes and clears a "trigger sent" flag.
 *
 * Time is an abstract steady clock counting microseconds.  One call of
 * `LoopStep` is one iteration of the trigger thread's loop; the run-control
 * callbacks and the readout callbacks are atomic steps between iterations.
 */
module SteadyTrigger {
  import opened Common

  /** The DIO board the trigger thread drives. */
  datatype Board = BoardA | BoardB | BoardC | BoardD

  /** The board switch at the start of the trigger thread: total, with board D as the default. */
  function SelectBoard(id: char): (b: Board)
    ensures b == BoardA <==> id == 'a'
    ensures b == BoardB <==> id == 'b'
    ensures b == BoardC <==> id == 'c'
    ensures b == BoardD <==> id != 'a' && id != 'b' && id != 'c'
  {
    match id
    case 'a' => BoardA
    case 'b' => BoardB
    case 'c' => BoardC
    case _ => BoardD
  }

  /** The letter naming each board in the settings. */
  function BoardLetter(b: Board): char {
    match b
    case BoardA => 'a'
    case BoardB => 'b'
    case BoardC => 'c'
    case BoardD => 'd'
  }

  lemma SelectBoardInvertsLetter(b: Board)
    ensures SelectBoard(BoardLetter(b)) == b
  {
  }

  /**
   * The settings `load_params` reads from the ODB.  The trigger period is
   * taken as a whole number of microseconds (the conversion from the
   * configured rate is floating point and is not modelled).
   */
  datatype Settings = Settings(
    useSteadyTrigger: bool,
    boardId: char,
    periodUs: nat,
    resolutionUs: int,
    triggerPort: int,
    triggerMask: int)

  /** The trigger thread's locals: its board, its period and the time of the last fire. */
  datatype TriggerThread = TriggerThread(board: Board, port: int, periodUs: nat, lastTrigger: nat)

  /** One call of `FireTriggers`: the clock reading that decided it, the mask, and the firing thread's period. */
  datatype Fire = Fire(at: nat, mask: int, periodUs: nat)

  /**
   * The frontend's globals.  `thread` is `Some` while `trigger_thread` is
   * joinable; `clock` is the latest steady-clock reading; `fires` is the
   * history of every `FireTriggers` call, oldest first.
   */
  datatype State = State(
    runInProgress: bool,
    triggering: bool,
    triggerSent: bool,
    settings: Settings,
    thread: Option<TriggerThread>,
    clock: nat,
    fires: seq<Fire>)

  /** Move-assigning a new `std::thread` onto a joinable one calls `std::terminate`. */
  datatype Fault = TerminatedOnJoinableThread

  /** What one loop iteration does besides updating state. */
  datatype Action = FireTriggers(mask: int) | Sleep(us: nat) | NoThread

  /** Sleep of the outer loop while the run is paused. */
  const PausedSleepUs: nat := 1000

  /**
   * The `int` argument of `usleep` converted to the unsigned 32-bit
   * `useconds_t`: a negative setting wraps to a very long sleep.
   */
  function Useconds(us: int): (r: nat)
    ensures r < 0x1_0000_0000
    ensures 0 <= us < 0x1_0000_0000 ==> r == us
    ensures us < 0 && -0x1_0000_0000 <= us ==> r == us + 0x1_0000_0000
  {
    us % 0x1_0000_0000
  }

  /** The state after `frontend_init`: flags false (static storage), settings loaded, no thread. */
  function Initial(settings: Settings): (s: State)
    ensures !s.runInProgress && !s.triggering && !s.triggerSent
    ensures s.thread.None? && s.fires == []
  {
    State(false, false, false, settings, None, 0, [])
  }

  /** A steady clock never runs backwards: the thread's last fire time is not in the future. */
  ghost predicate Clocked(s: State) {
    s.thread.Some? ==> s.thread.value.lastTrigger <= s.clock
  }

  /** The inner loop takes its firing branch at clock reading `now`. */
  predicate ShouldFire(s: State, now: nat) {
    && s.thread.Some?
    && s.triggering
    && now - s.thread.value.lastTrigger > s.thread.value.periodUs
  }

  /**
   * `begin_of_run`: set both flags, reload the settings, and launch the
   * trigger thread when the steady trigger is enabled.  The thread starts its
   * clock at `now`, so its first fire needs one full period.
   */
  function BeginOfRun(s: State, settings: Settings, now: nat): (r: Result<State, Fault>)
    requires s.clock <= now
    ensures r.Err? <==> settings.useSteadyTrigger && s.thread.Some?
    ensures r.Ok? ==> r.value.runInProgress && r.value.triggering
    ensures r.Ok? ==> r.value.triggerSent == s.triggerSent && r.value.fires == s.fires
    ensures r.Ok? ==> r.value.settings == settings && r.value.clock == now
    ensures r.Ok? && settings.useSteadyTrigger ==>
      r.value.thread == Some(TriggerThread(SelectBoard(settings.boardId), settings.triggerPort, settings.periodUs, now))
    ensures r.Ok? && !settings.useSteadyTrigger ==> r.value.thread == s.thread
  {
    var started := s.(runInProgress := true, triggering := true, settings := settings, clock := now);
    if !settings.useSteadyTrigger then Ok(started)
    else if s.thread.Some? then Err(TerminatedOnJoinableThread)
    else
      var t := TriggerThread(SelectBoard(settings.boardId), settings.triggerPort, settings.periodUs, now);
      Ok(started.(thread := Some(t)))
  }

  /**
   * `end_of_run`: clear `triggering`, then `run_in_progress`, then join the
   * thread if one was launched; the thread leaves both loops without firing.
   */
  function EndOfRun(s: State): (r: State)
    ensures !r.runInProgress && !r.triggering && r.thread.None?
    ensures r.triggerSent == s.triggerSent && r.fires == s.fires && r.clock == s.clock
    ensures r.settings == s.settings
  {
    s.(triggering := false, runInProgress := false, thread := None)
  }

  /** `pause_run` only disarms the inner loop; the thread keeps its last fire time. */
  function PauseRun(s: State): (r: State)
    ensures !r.triggering
    ensures r.(triggering := s.triggering) == s
  {
    s.(triggering := false)
  }

  /** `resume_run` only re-arms the inner loop: the clock is not reset. */
  function ResumeRun(s: State): (r: State)
    ensures r.triggering
    ensures r.(triggering := s.triggering) == s
  {
    s.(triggering := true)
  }

  lemma PauseThenResumeRestores(s: State)
    requires s.triggering
    ensures ResumeRun(PauseRun(s)) == s
  {
  }

  /**
   * One iteration of the trigger thread at clock reading `now`.  When the
   * inner loop is armed and strictly more than one period has elapsed since
   * the last fire, it fires the board with the current mask, sets
   * `trigger_sent`, and restarts the period at `firedAt`, the clock reading
   * taken after `FireTriggers` returns.  Otherwise it only sleeps.
   */
  function LoopStep(s: State, now: nat, firedAt: nat): (r: (State, Action))
    requires s.clock <= now <= firedAt
    requires Clocked(s)
    ensures Clocked(r.0)
    ensures r.0.runInProgress == s.runInProgress && r.0.triggering == s.triggering
    ensures r.0.settings == s.settings
    ensures r.1.FireTriggers? <==> ShouldFire(s, now)
    ensures ShouldFire(s, now) ==>
      && r.1 == FireTriggers(s.settings.triggerMask)
      && r.0.triggerSent
      && r.0.fires == s.fires + [Fire(now, s.settings.triggerMask, s.thread.value.periodUs)]
      && r.0.thread == Some(s.thread.value.(lastTrigger := firedAt))
    ensures !ShouldFire(s, now) ==>
      r.0.fires == s.fires && r.0.triggerSent == s.triggerSent && r.0.thread == s.thread
    ensures s.thread.Some? && s.triggering && !ShouldFire(s, now) ==> r.1 == Sleep(Useconds(s.settings.resolutionUs))
    ensures s.thread.Some? && !s.triggering ==> r.1 == Sleep(PausedSleepUs)
    ensures s.thread.None? ==> r.1 == NoThread
    ensures r.0.clock == if ShouldFire(s, now) then firedAt else now
  {
    match s.thread
    case None => (s.(clock := now), NoThread)
    case Some(t) =>
      if !s.triggering then (s.(clock := now), Sleep(PausedSleepUs))
      else if now - t.lastTrigger > t.periodUs then
        var mask := s.settings.triggerMask;
        (s.(triggerSent := true,
            thread := Some(t.(lastTrigger := firedAt)),
            clock := firedAt,
            fires := s.fires + [Fire(now, mask, t.periodUs)]),
         FireTriggers(mask))
      else (s.(clock := now), Sleep(Useconds(s.settings.resolutionUs)))
  }

  /** `poll_event`: 0 during calibration, otherwise 1 exactly when a trigger was sent and not yet read. */
  function PollEvent(s: State, test: bool): (n: int)
    ensures n == 0 || n == 1
    ensures n == 1 <==> !test && s.triggerSent
  {
    if test then 0 else if s.triggerSent then 1 else 0
  }

  /** `read_trigger_event`: writes the bank and clears `trigger_sent`; nothing else changes. */
  function ReadTriggerEvent(s: State): (r: State)
    ensures !r.triggerSent
    ensures r.(triggerSent := s.triggerSent) == s
  {
    s.(triggerSent := false)
  }

  /** The events a run can see; clock readings advance by the given non-negative amounts. */
  datatype Event =
    | BeginRun(settings: Settings, delay: nat)
    | EndRun
    | PauseEvent
    | ResumeEvent
    | Iterate(delay: nat, fireCost: nat)
    | ReadEvent

  function Apply(s: State, e: Event): (r: Result<State, Fault>)
    requires Clocked(s)
    ensures r.Ok? ==> Clocked(r.value) && r.value.clock >= s.clock
    ensures r.Err? <==> e.BeginRun? && e.settings.useSteadyTrigger && s.thread.Some?
  {
    match e
    case BeginRun(settings, delay) => BeginOfRun(s, settings, s.clock + delay)
    case EndRun => Ok(EndOfRun(s))
    case PauseEvent => Ok(PauseRun(s))
    case ResumeEvent => Ok(ResumeRun(s))
    case Iterate(delay, cost) => Ok(LoopStep(s, s.clock + delay, s.clock + delay + cost).0)
    case ReadEvent => Ok(ReadTriggerEvent(s))
  }

  /** Runs a sequence of events, stopping at the first fault. */
  function Exec(s: State, evs: seq<Event>): (r: Result<State, Fault>)
    requires Clocked(s)
    ensures r.Ok? ==> Clocked(r.value) && r.value.clock >= s.clock
    decreases |evs|
  {
    if evs == [] then Ok(s)
    else
      match Apply(s, evs[0])
      case Err(f) => Err(f)
      case Ok(s') => Exec(s', evs[1..])
  }

  /** Running `a` and then `b` is running `a + b`: a fault in `a` ends the run. */
  lemma {:induction false} ExecAppend(s: State, a: seq<Event>, b: seq<Event>)
    requires Clocked(s)
    ensures Exec(s, a + b) == if Exec(s, a).Err? then Exec(s, a) else Exec(Exec(s, a).value, b)
    decreases |a|
  {
    if a == [] {
      assert a + b == b;
    } else {
      assert (a + b)[0] == a[0];
      assert (a + b)[1..] == a[1..] + b;
      if Apply(s, a[0]).Ok? {
        ExecAppend(Apply(s, a[0]).value, a[1..], b);
      }
    }
  }

  /**
   * A run faults exactly when some event faults in the state the events
   * before it reached, and then it ends with that event's fault.
   */
  lemma {:induction false} ExecStopsAtFirstFault(s: State, evs: seq<Event>)
    requires Clocked(s)
    ensures Exec(s, evs).Err? <==>
      exists k :: 0 <= k < |evs| && Exec(s, evs[..k]).Ok? && Apply(Exec(s, evs[..k]).value, evs[k]).Err?
    ensures Exec(s, evs).Err? ==>
      exists k :: 0 <= k < |evs| && Exec(s, evs[..k]).Ok? && Apply(Exec(s, evs[..k]).value, evs[k]) == Exec(s, evs)
    decreases |evs|
  {
    if Exec(s, evs).Err? {
      FaultHasPrefix(s, evs);
    }
    forall k | 0 <= k < |evs| && Exec(s, evs[..k]).Ok? && Apply(Exec(s, evs[..k]).value, evs[k]).Err?
      ensures Exec(s, evs).Err?
    {
      FaultEndsRun(s, evs, k);
    }
  }

  lemma {:induction false} FaultHasPrefix(s: State, evs: seq<Event>)
    requires Clocked(s) && Exec(s, evs).Err?
    ensures exists k :: 0 <= k < |evs| && Exec(s, evs[..k]).Ok? && Apply(Exec(s, evs[..k]).value, evs[k]) == Exec(s, evs)
    decreases |evs|
  {
    assert evs[..0] == [];
    if Apply(s, evs[0]).Ok? {
      var s' := Apply(s, evs[0]).value;
      var tail := evs[1..];
      FaultHasPrefix(s', tail);
      var k :| 0 <= k < |tail| && Exec(s', tail[..k]).Ok? && Apply(Exec(s', tail[..k]).value, tail[k]) == Exec(s', tail);
      assert evs[..k + 1][0] == evs[0] && evs[..k + 1][1..] == tail[..k];
      assert Exec(s, evs[..k + 1]) == Exec(s', tail[..k]);
      assert evs[k + 1] == tail[k];
    }
  }

  lemma FaultEndsRun(s: State, evs: seq<Event>, k: nat)
    requires Clocked(s) && k < |evs|
    requires Exec(s, evs[..k]).Ok? && Apply(Exec(s, evs[..k]).value, evs[k]).Err?
    ensures Exec(s, evs) == Apply(Exec(s, evs[..k]).value, evs[k])
  {
    ExecAppend(s, evs[..k], evs[k..]);
    assert evs[..k] + evs[k..] == evs;
    assert evs[k..][0] == evs[k];
  }

  // ---------------------------------------------------------------------
  // Spacing of fires

  /**
   * Every fire comes strictly more than its thread's period after every
   * earlier fire.
   */
  ghost predicate Spaced(fs: seq<Fire>) {
    forall a, b :: 0 <= a < b < |fs| ==> fs[a].at + fs[b].periodUs < fs[b].at
  }

  /** The invariant every reachable state keeps. */
  ghost predicate Inv(s: State) {
    && Clocked(s)
    && Spaced(s.fires)
    && (s.fires != [] ==> s.fires[|s.fires| - 1].at <= s.clock)
    && (s.thread.Some? && s.fires != [] ==> s.fires[|s.fires| - 1].at <= s.thread.value.lastTrigger)
  }

  lemma InitialInv(settings: Settings)
    ensures Inv(Initial(settings))
  {
  }

  lemma {:induction false} LoopStepInv(s: State, now: nat, firedAt: nat)
    requires Inv(s) && s.clock <= now <= firedAt
    ensures Inv(LoopStep(s, now, firedAt).0)
  {
    var r := LoopStep(s, now, firedAt).0;
    if ShouldFire(s, now) {
      var t := s.thread.value;
      var fs := s.fires;
      var g := Fire(now, s.settings.triggerMask, t.periodUs);
      assert r.fires == fs + [g];
      forall a, b | 0 <= a < b < |r.fires|
        ensures r.fires[a].at + r.fires[b].periodUs < r.fires[b].at
      {
        if b < |fs| {
          assert r.fires[a] == fs[a] && r.fires[b] == fs[b];
        } else {
          assert r.fires[b] == g && r.fires[a] == fs[a];
          if a < |fs| - 1 {
            assert fs[a].at + fs[|fs| - 1].periodUs < fs[|fs| - 1].at;
          }
          assert fs[a].at <= t.lastTrigger;
        }
      }
    }
  }

  lemma {:induction false} ApplyInv(s: State, e: Event)
    requires Inv(s)
    ensures Apply(s, e).Ok? ==> Inv(Apply(s, e).value)
  {
    if e.Iterate? {
      IterateInv(s, e);
    } else {
      QuietEventInv(s, e);
    }
  }

  lemma IterateInv(s: State, e: Event)
    requires Inv(s) && e.Iterate?
    ensures Apply(s, e).Ok? ==> Inv(Apply(s, e).value)
  {
    var now, firedAt := s.clock + e.delay, s.clock + e.delay + e.fireCost;
    LoopStepInv(s, now, firedAt);
    assert Apply(s, e) == Ok(LoopStep(s, now, firedAt).0);
  }

  lemma QuietEventInv(s: State, e: Event)
    requires Inv(s) && !e.Iterate?
    ensures Apply(s, e).Ok? ==> Inv(Apply(s, e).value)
  {
  }

  /** Every run of events from a state satisfying the invariant ends in one. */
  lemma {:induction false} ExecInv(s: State, evs: seq<Event>)
    requires Inv(s)
    ensures Exec(s, evs).Ok? ==> Inv(Exec(s, evs).value)
    decreases |evs|
  {
    if evs != [] {
      ApplyInv(s, evs[0]);
      if Apply(s, evs[0]).Ok? {
        ExecInv(Apply(s, evs[0]).value, evs[1..]);
      }
    }
  }

  /** The fires whose decision time lies in the closed window `[lo, hi]`, in order. */
  function FiresIn(fs: seq<Fire>, lo: int, hi: int): (w: seq<Fire>)
    ensures forall k :: 0 <= k < |w| ==> w[k] in fs && lo <= w[k].at <= hi
    decreases |fs|
  {
    if fs == [] then []
    else
      var rest := FiresIn(fs[1..], lo, hi);
      if lo <= fs[0].at <= hi then [fs[0]] + rest else rest
  }

  /** The window keeps every fire whose decision time lies in it. */
  lemma {:induction false} FiresInComplete(fs: seq<Fire>, lo: int, hi: int, k: nat)
    requires k < |fs| && lo <= fs[k].at <= hi
    ensures fs[k] in FiresIn(fs, lo, hi)
    decreases |fs|
  {
    if k > 0 {
      assert fs[1..][k - 1] == fs[k];
      FiresInComplete(fs[1..], lo, hi, k - 1);
    }
  }

  /** Every later fire of a spaced history keeps its distance from the first one. */
  lemma SpacedFromHead(fs: seq<Fire>, y: Fire)
    requires Spaced(fs) && |fs| >= 1 && y in fs[1..]
    ensures fs[0].at + y.periodUs < y.at
  {
    var k :| 0 <= k < |fs[1..]| && fs[1..][k] == y;
    assert fs[k + 1] == y;
  }

  lemma SpacedTail(fs: seq<Fire>)
    requires Spaced(fs) && |fs| >= 1
    ensures Spaced(fs[1..])
  {
    forall a, b | 0 <= a < b < |fs[1..]|
      ensures fs[1..][a].at + fs[1..][b].periodUs < fs[1..][b].at
    {
      assert fs[1..][a] == fs[a + 1] && fs[1..][b] == fs[b + 1];
    }
  }

  lemma {:induction false} FiresInSpaced(fs: seq<Fire>, lo: int, hi: int)
    requires Spaced(fs)
    ensures Spaced(FiresIn(fs, lo, hi))
    decreases |fs|
  {
    if fs != [] {
      var rest := FiresIn(fs[1..], lo, hi);
      SpacedTail(fs);
      FiresInSpaced(fs[1..], lo, hi);
      if lo <= fs[0].at <= hi {
        var w := [fs[0]] + rest;
        forall a, b | 0 <= a < b < |w|
          ensures w[a].at + w[b].periodUs < w[b].at
        {
          assert w[b] == rest[b - 1];
          if a == 0 {
            SpacedFromHead(fs, rest[b - 1]);
          } else {
            assert w[a] == rest[a - 1];
          }
        }
      }
    }
  }

  /** In a spaced history whose periods are all at least `p`, the first and last fire are far apart. */
  lemma {:induction false} SpacedSpan(fs: seq<Fire>, p: nat)
    requires Spaced(fs) && |fs| >= 1
    requires forall k :: 0 <= k < |fs| ==> fs[k].periodUs >= p
    ensures fs[|fs| - 1].at - fs[0].at >= (|fs| - 1) * (p + 1)
    decreases |fs|
  {
    var n := |fs|;
    if n > 1 {
      var init := fs[..n - 1];
      assert Spaced(init) by {
        forall a, b | 0 <= a < b < |init|
          ensures init[a].at + init[b].periodUs < init[b].at
        {
          assert init[a] == fs[a] && init[b] == fs[b];
        }
      }
      SpacedSpan(init, p);
      assert init[n - 2] == fs[n - 2] && init[0] == fs[0];
      assert fs[n - 2].at + fs[n - 1].periodUs < fs[n - 1].at;
      assert (n - 1) * (p + 1) == (n - 2) * (p + 1) + (p + 1);
    }
  }

  /** `a * b <= c` with `b > 0` bounds `a` by the floor quotient. */
  lemma FloorBound(a: nat, b: nat, c: nat)
    requires b > 0 && a * b <= c
    ensures a <= c / b
  {
    var q := c / b;
    assert q * b + c % b == c;
    assert (q + 1) * b == q * b + b;
    assert c < (q + 1) * b;
    if q + 1 <= a {
      MulMono(q + 1, a, b);
      assert false;
    }
  }

  lemma MulMono(x: int, y: int, b: nat)
    requires x <= y
    ensures x * b <= y * b
  {
    assert y * b - x * b == (y - x) * b;
  }

  /**
   * The rate bound: within any window of length `len`, a history of fires
   * from a reachable state holds at most `len / (p + 1) + 1` fires whose
   * period is at least `p`, pauses, resumes and run boundaries included.
   */
  lemma FireRateBound(s: State, evs: seq<Event>, lo: int, len: nat, p: nat)
    requires Inv(s)
    requires Exec(s, evs).Ok?
    requires forall f :: f in FiresIn(Exec(s, evs).value.fires, lo, lo + len) ==> f.periodUs >= p
    ensures |FiresIn(Exec(s, evs).value.fires, lo, lo + len)| <= len / (p + 1) + 1
  {
    ExecInv(s, evs);
    WindowBound(Exec(s, evs).value.fires, lo, len, p);
  }

  lemma SpanBound(w: seq<Fire>, lo: int, len: nat, p: nat)
    requires |w| >= 1 && lo <= w[0].at && w[|w| - 1].at <= lo + len
    requires w[|w| - 1].at - w[0].at >= (|w| - 1) * (p + 1)
    ensures |w| <= len / (p + 1) + 1
  {
    FloorBound(|w| - 1, p + 1, len);
  }

  /** The rate bound for one spaced history. */
  lemma WindowBound(fs: seq<Fire>, lo: int, len: nat, p: nat)
    requires Spaced(fs)
    requires forall f :: f in FiresIn(fs, lo, lo + len) ==> f.periodUs >= p
    ensures |FiresIn(fs, lo, lo + len)| <= len / (p + 1) + 1
  {
    FiresInSpaced(fs, lo, lo + len);
    SpacedWindow(FiresIn(fs, lo, lo + len), lo, len, p);
  }

  lemma SpacedWindow(w: seq<Fire>, lo: int, len: nat, p: nat)
    requires Spaced(w)
    requires forall k :: 0 <= k < |w| ==> lo <= w[k].at <= lo + len
    requires forall f :: f in w ==> f.periodUs >= p
    ensures |w| <= len / (p + 1) + 1
  {
    if |w| >= 1 {
      assert forall k :: 0 <= k < |w| ==> w[k].periodUs >= p by {
        forall k | 0 <= k < |w| ensures w[k].periodUs >= p {
          assert w[k] in w;
        }
      }
      SpacedSpan(w, p);
      SpanBound(w, lo, len, p);
    }
  }

  /** No catch-up burst: two fires are always more than the later fire's period apart. */
  lemma FiresNeverBurst(s: State, evs: seq<Event>, a: nat, b: nat)
    requires Inv(s) && Exec(s, evs).Ok?
    requires a < b < |Exec(s, evs).value.fires|
    ensures Exec(s, evs).value.fires[b].at - Exec(s, evs).value.fires[a].at > Exec(s, evs).value.fires[b].periodUs
  {
    ExecInv(s, evs);
  }

  // ---------------------------------------------------------------------
  // Run control and the trigger flag

  predicate NoBegin(evs: seq<Event>) {
    forall k :: 0 <= k < |evs| ==> !evs[k].BeginRun?
  }

  /** Once the thread has been joined, no event short of a new begin-of-run fires the board. */
  lemma {:induction false} QuietWithoutThread(s: State, evs: seq<Event>)
    requires Clocked(s) && s.thread.None? && NoBegin(evs)
    ensures Exec(s, evs).Ok?
    ensures Exec(s, evs).value.fires == s.fires
    ensures Exec(s, evs).value.thread.None?
    decreases |evs|
  {
    if evs != [] {
      var s' := Apply(s, evs[0]).value;
      assert !evs[0].BeginRun?;
      assert NoBegin(evs[1..]) by {
        forall k | 0 <= k < |evs[1..]| ensures !evs[1..][k].BeginRun? {
          assert evs[1..][k] == evs[k + 1];
        }
      }
      QuietWithoutThread(s', evs[1..]);
    }
  }

  /** After `end_of_run` returns, no fire happens until the next begin-of-run. */
  lemma EndOfRunIsFinal(s: State, evs: seq<Event>)
    requires Clocked(s) && NoBegin(evs)
    ensures Exec(EndOfRun(s), evs).Ok?
    ensures Exec(EndOfRun(s), evs).value.fires == s.fires
  {
    QuietWithoutThread(EndOfRun(s), evs);
  }

  /** A paused thread neither fires nor moves its last fire time, however long it waits. */
  lemma PausedThreadHoldsPhase(s: State, now: nat, firedAt: nat)
    requires Clocked(s) && s.clock <= now <= firedAt && s.thread.Some?
    ensures var r := LoopStep(PauseRun(s), now, firedAt).0;
      r.fires == s.fires && r.thread == s.thread
  {
  }

  /** The first fire of a run needs strictly more than one full period after the thread started. */
  lemma FirstFireNeedsFullPeriod(s: State, settings: Settings, start: nat, now: nat, firedAt: nat)
    requires Clocked(s) && s.clock <= start <= now <= firedAt
    requires BeginOfRun(s, settings, start).Ok? && settings.useSteadyTrigger
    ensures LoopStep(BeginOfRun(s, settings, start).value, now, firedAt).1.FireTriggers?
      <==> now - start > settings.periodUs
  {
  }

  /**
   * The trigger flag is a flag, not a counter: two fires before one read
   * leave a single pending event, and the read consumes it.
   */
  lemma FiresCollapseIntoOneEvent(s: State, t1: nat, f1: nat, t2: nat, f2: nat)
    requires Clocked(s) && s.clock <= t1 <= f1 <= t2 <= f2
    requires ShouldFire(s, t1)
    requires ShouldFire(LoopStep(s, t1, f1).0, t2)
    ensures var twice := LoopStep(LoopStep(s, t1, f1).0, t2, f2).0;
      && PollEvent(twice, false) == 1
      && PollEvent(ReadTriggerEvent(twice), false) == 0
      && |twice.fires| == |s.fires| + 2
  {
  }
}
