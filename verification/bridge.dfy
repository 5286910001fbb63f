/** The whole bridge as one state record and pure step functions: the
    datagram handler (packet counter, board filter, edge detector), the
    one-second display refresh and config reload, and the startup placeholder.
    Time is an input in milliseconds; effects are returned as actions. */
module Bridge {
  import opened Wrappers
  import opened Actions
  import opened Config
  import opened Packets
  import opened SequenceTracker
  import opened EdgeDetector

  datatype State = State(counters: Counters, detector: Detector, config: MainSection)

  /** Startup: validate config.ini, then start with no counters, all-low
      previous levels, no trigger yet and an empty last snapshot. */
  function Boot(doc: Option<IniDoc>): (r: Result<State, StartupError>)
    ensures r.Success? <==> Startup(doc).Success?
    ensures r.Success? ==> r.value.config == Startup(doc).value && r.value.counters == map[]
    ensures r.Success? ==> r.value.detector == InitialDetector && Consistent(r.value.detector)
    ensures r.Success? && r.value.config.pin.Some? ==> 1 <= r.value.config.pin.value <= 8
  {
    match Startup(doc)
    case Success(cfg) => Success(State(map[], InitialDetector, cfg))
    case Failure(e) => Failure(e)
  }

  /** The board filter `config.main.board && parsed.host !== config.main.board`
      lets the snapshot through. */
  predicate Admits(cfg: MainSection, p: Snapshot)
    // with no board configured (missing or empty) every snapshot passes
    ensures !Truthy(cfg.board) ==> Admits(cfg, p)
    // with a board configured, exactly the snapshots naming that board pass
    ensures Truthy(cfg.board) ==> (Admits(cfg, p) <==> p.host.Some? && p.host.value == cfg.board.value)
  {
    !Truthy(cfg.board) || p.host == cfg.board
  }

  /** The `udp.on("message")` handler for one datagram from `from` at `now`. */
  function HandleFrame(st: State, frame: Frame, from: string, now: int): (r: (State, seq<Action>))
    // unparsable or falsy frames change nothing and send nothing
    ensures !frame.Parsed? ==> r == (st, [])
    // the packet counter runs for every parsed frame, filtered or not
    ensures frame.Parsed? ==>
              var (c, reqs) := Observe(st.counters, frame.snapshot.host, frame.snapshot.pno, from);
              r.0.counters == c && |reqs| <= |r.1| <= |reqs| + 1 && r.1[..|reqs|] == reqs
    // a frame from another board never reaches the edge detector
    ensures frame.Parsed? && !Admits(st.config, frame.snapshot) ==>
              r.0.detector == st.detector &&
              r.1 == Observe(st.counters, frame.snapshot.host, frame.snapshot.pno, from).1 && !Fired(r.1)
    // an admitted frame is evaluated by updateInfo (not as a dry run), after the counter
    ensures frame.Parsed? && Admits(st.config, frame.snapshot) ==>
              var u := UpdateInfo(st.detector, st.config, frame.snapshot, now, false);
              r.0.detector == u.0 &&
              r.1 == Observe(st.counters, frame.snapshot.host, frame.snapshot.pno, from).1 + u.1
    // any trigger is the configured cue, sent last
    ensures forall i :: 0 <= i < |r.1| && r.1[i].Fire? ==> r.1[i] == FireAction(st.config) && i == |r.1| - 1
    ensures r.0.config == st.config
  {
    match frame
    case Malformed => (st, [])
    case Falsy => (st, [])
    case Parsed(p) =>
      var (counters, requests) := Observe(st.counters, p.host, p.pno, from);
      if !Admits(st.config, p) then (st.(counters := counters), requests)
      else
        var (d, fires) := UpdateInfo(st.detector, st.config, p, now, false);
        assert (requests + fires)[..|requests|] == requests;
        (State(counters, d, st.config), requests + fires)
  }

  /** The display refresh of the one-second timer: a dry run over the last
      snapshot while `now - lastPress <= (delay + 1) * 1000`. */
  function DisplayTick(st: State, now: int): (r: (State, seq<Action>))
    ensures r.1 == []
    ensures r.0.detector.lastPress == st.detector.lastPress
    ensures r.0.detector.lastParsed == st.detector.lastParsed
    ensures r.0.counters == st.counters && r.0.config == st.config
  {
    if now - st.detector.lastPress <= (st.config.cueRetriggerDelay + 1) * 1000 then
      var (d, acts) := UpdateInfo(st.detector, st.config, st.detector.lastParsed, now, true);
      (st.(detector := d), acts)
    else (st, [])
  }

  /** In every consistent state the display refresh is a no-op. */
  lemma DisplayTickIsIdle(st: State, now: int)
    requires Consistent(st.detector)
    ensures DisplayTick(st, now) == (st, [])
  {
    DryRunOfLastIsIdle(st.detector, st.config, now);
  }

  /** The all-low placeholder evaluated (not as a dry run) one second after
      the socket is bound: it never fires, and afterwards every previous
      level the detector holds is low. */
  function ShowPlaceholder(st: State, now: int): (r: (State, seq<Action>))
    ensures r.1 == []
    ensures forall i :: 0 <= i < |r.0.detector.lastGpi| ==> !r.0.detector.lastGpi[i]
    ensures r.0.detector.lastPress == st.detector.lastPress
    ensures r.0.counters == st.counters && r.0.config == st.config
  {
    var (d, acts) := UpdateInfo(st.detector, st.config, PlaceholderSnapshot, now, false);
    (st.(detector := d), acts)
  }

  /** A datagram whose snapshot the board filter admits fires when its
      levels show a rising edge on the monitored channel and the cooldown
      has elapsed, and the trigger names the configured cue. */
  lemma AdmittedEdgeFires(st: State, p: Snapshot, from: string, now: int)
    requires Admits(st.config, p) && p.gpi.Some?
    requires RisingEdge(st.detector, st.config, p.gpi.value) && CooledDown(st.detector, st.config, now)
    ensures var r := Step(st, Event(now, Datagram(Parsed(p), from)));
      Fired(r.1) && r.1[|r.1| - 1] == FireAction(st.config) && r.0.detector.lastPress == now
  {
  }

  /** The all-low placeholder re-arms the edge: after it, an admitted packet
      that contains the monitored channel fires iff that channel is high and
      the cooldown has elapsed, even if the channel was already high before. */
  lemma PlaceholderRearms(st: State, t0: int, p: Snapshot, from: string, now: int)
    requires Admits(st.config, p) && p.gpi.Some?
    requires st.config.pin.Some? && 1 <= st.config.pin.value <= |p.gpi.value|
    ensures var s1 := ShowPlaceholder(st, t0).0;
      Fired(Step(s1, Event(now, Datagram(Parsed(p), from))).1) <==>
        p.gpi.value[st.config.pin.value - 1] && CooledDown(s1.detector, st.config, now)
  {
  }

  /** Inputs the bridge reacts to. `ConfigReread` carries the outcome of
      reading and parsing config.ini (`None` on failure). */
  datatype Input =
    | Datagram(frame: Frame, from: string)
    | DisplayRefresh
    | Placeholder
    | ConfigReread(reread: Option<IniDoc>)

  datatype Event = Event(now: int, input: Input)

  /** One event of the single-threaded event loop. */
  function Step(st: State, ev: Event): (r: (State, seq<Action>))
    // only a datagram can fire, and it fires at most once, as its last action
    ensures forall i :: 0 <= i < |r.1| && r.1[i].Fire? ==>
              i == |r.1| - 1 && ev.input.Datagram? && r.1[i] == FireAction(st.config)
    // a fire restarts the cooldown, which had elapsed; otherwise the trigger time stays
    ensures Fired(r.1) ==>
              (r.0.detector.lastPress == ev.now &&
               ev.now - st.detector.lastPress >= st.config.cueRetriggerDelay * 1000)
    ensures !Fired(r.1) ==> r.0.detector.lastPress == st.detector.lastPress
    // only a reread can change the configuration, and only to an adoptable one
    ensures !ev.input.ConfigReread? ==> r.0.config == st.config
    ensures ev.input.ConfigReread? ==> r == (st.(config := Reload(st.config, ev.input.reread)), [])
    // a datagram goes through the message handler, a refresh through the dry run
    ensures ev.input.Datagram? ==> r == HandleFrame(st, ev.input.frame, ev.input.from, ev.now)
    ensures ev.input.DisplayRefresh? ==> r == DisplayTick(st, ev.now)
    ensures ev.input.Placeholder? ==> r == ShowPlaceholder(st, ev.now)
    ensures Consistent(st.detector) ==> Consistent(r.0.detector)
  {
    match ev.input
    case Datagram(frame, from) => HandleFrame(st, frame, from, ev.now)
    case DisplayRefresh => DisplayTick(st, ev.now)
    case Placeholder => ShowPlaceholder(st, ev.now)
    case ConfigReread(reread) => (st.(config := Reload(st.config, reread)), [])
  }

  /** An action stamped with the time of the event that produced it. */
  datatype Emitted = Emitted(at: int, action: Action)

  function Stamp(t: int, acts: seq<Action>): (r: seq<Emitted>)
    ensures |r| == |acts|
    ensures forall i :: 0 <= i < |acts| ==> r[i] == Emitted(t, acts[i])
  {
    seq(|acts|, i requires 0 <= i < |acts| => Emitted(t, acts[i]))
  }

  /** Processing a sequence of events in order. */
  function Run(st: State, evs: seq<Event>): (r: (State, seq<Emitted>))
    decreases |evs|
  {
    if |evs| == 0 then (st, [])
    else
      var (st1, acts) := Step(st, evs[0]);
      var (st2, out) := Run(st1, evs[1..]);
      (st2, Stamp(evs[0].now, acts) + out)
  }

  /** The times of the emitted triggers, in order. */
  function FireTimes(out: seq<Emitted>): seq<int> {
    if |out| == 0 then []
    else (if out[0].action.Fire? then [out[0].at] else []) + FireTimes(out[1..])
  }

  lemma {:induction false} FireTimesAppend(a: seq<Emitted>, b: seq<Emitted>)
    ensures FireTimes(a + b) == FireTimes(a) + FireTimes(b)
    decreases |a|
  {
    if |a| == 0 {
      assert a + b == b;
    } else {
      assert (a + b)[0] == a[0];
      assert (a + b)[1..] == a[1..] + b;
      FireTimesAppend(a[1..], b);
    }
  }

  /** The triggers of one step are stamped with its time, at most once. */
  lemma {:induction false} StepFireTimes(st: State, ev: Event)
    ensures FireTimes(Stamp(ev.now, Step(st, ev).1)) == (if Fired(Step(st, ev).1) then [ev.now] else [])
  {
    var acts := Step(st, ev).1;
    var out := Stamp(ev.now, acts);
    assert |acts| <= 2 by {
      if ev.input.Datagram? && ev.input.frame.Parsed? {
        var p := ev.input.frame.snapshot;
        var reqs := Observe(st.counters, p.host, p.pno, ev.input.from).1;
        assert |reqs| <= 1;
      }
    }
    if |acts| == 1 {
      assert out[1..] == [];
      assert Fired(acts) <==> acts[0].Fire?;
    } else if |acts| == 2 {
      assert !acts[0].Fire?;
      assert FireTimes(out) == FireTimes(out[1..]);
      assert out[1..][1..] == [];
      assert FireTimes(out[1..]) == (if acts[1].Fire? then [ev.now] else []);
      assert Fired(acts) <==> acts[1].Fire?;
    }
  }

  /** No event in `evs` rereads the configuration. */
  predicate NoReread(evs: seq<Event>) {
    forall i :: 0 <= i < |evs| ==> !evs[i].input.ConfigReread?
  }

  /** Every reread in `evs` that is adopted keeps the retrigger delay `delay`;
      failed rereads and rereads without a cue are ignored anyway. */
  predicate DelayKept(delay: nat, evs: seq<Event>) {
    forall i :: 0 <= i < |evs| && evs[i].input.ConfigReread? && Adoptable(evs[i].input.reread) ==>
      evs[i].input.reread.value.main.value.cueRetriggerDelay == delay
  }

  /** Each trigger time is at least `gap` after the previous one, the first
      at least `gap` after `t0`. */
  predicate SpacedFrom(t0: int, ts: seq<int>, gap: int) {
    && (|ts| > 0 ==> ts[0] - t0 >= gap)
    && forall k :: 1 <= k < |ts| ==> ts[k] - ts[k - 1] >= gap
  }

  /** The last trigger time, or `t0` when there is none. */
  function LastOr(t0: int, ts: seq<int>): int {
    if |ts| == 0 then t0 else ts[|ts| - 1]
  }

  /** Prepending a trigger at `t`, itself at least `gap` after `t0`, to times
      spaced from `t` keeps them spaced, now from `t0`. */
  lemma SpacedCons(t0: int, t: int, ft: seq<int>, gap: int)
    requires t - t0 >= gap && SpacedFrom(t, ft, gap)
    ensures SpacedFrom(t0, [t] + ft, gap)
  {
    var ts := [t] + ft;
    forall k | 1 <= k < |ts|
      ensures ts[k] - ts[k - 1] >= gap
    {
      assert ts[k] == ft[k - 1];
      if k == 1 {
        assert ft[0] - t >= gap;
      } else {
        assert ts[k - 1] == ft[k - 2];
        assert ft[k - 1] - ft[k - 2] >= gap;
      }
    }
  }

  /** One step followed by a run: the run's trigger times are the step's
      (at most one, at the event's time) followed by the rest. */
  lemma RunUnfold(st: State, evs: seq<Event>)
    requires |evs| > 0
    ensures var (st1, acts) := Step(st, evs[0]);
      FireTimes(Run(st, evs).1) ==
        (if Fired(acts) then [evs[0].now] else []) + FireTimes(Run(st1, evs[1..]).1)
    ensures Run(st, evs).0 == Run(Step(st, evs[0]).0, evs[1..]).0
  {
    var (st1, acts) := Step(st, evs[0]);
    StepFireTimes(st, evs[0]);
    FireTimesAppend(Stamp(evs[0].now, acts), Run(st1, evs[1..]).1);
  }

  /** While the retrigger delay stays the same (rereads may fail, or adopt a
      config with the same delay), every trigger of a run waits the full
      cooldown after the previous trigger (or after the trigger time the run
      started with), and the run ends with the last trigger time recorded. */
  lemma {:induction false} RunSpacesFires(st: State, evs: seq<Event>)
    requires DelayKept(st.config.cueRetriggerDelay, evs)
    ensures SpacedFrom(st.detector.lastPress, FireTimes(Run(st, evs).1), st.config.cueRetriggerDelay * 1000)
    ensures Run(st, evs).0.config.cueRetriggerDelay == st.config.cueRetriggerDelay
    ensures NoReread(evs) ==> Run(st, evs).0.config == st.config
    ensures Run(st, evs).0.detector.lastPress == LastOr(st.detector.lastPress, FireTimes(Run(st, evs).1))
    decreases |evs|
  {
    if |evs| > 0 {
      var st1 := Step(st, evs[0]).0;
      var fired := Fired(Step(st, evs[0]).1);
      var rest := evs[1..];
      assert st1.config.cueRetriggerDelay == st.config.cueRetriggerDelay by {
        if evs[0].input.ConfigReread? && Adoptable(evs[0].input.reread) {
          assert evs[0].input.reread.value.main.value.cueRetriggerDelay == st.config.cueRetriggerDelay;
        }
      }
      assert DelayKept(st.config.cueRetriggerDelay, rest) by {
        forall i | 0 <= i < |rest| && rest[i].input.ConfigReread? && Adoptable(rest[i].input.reread)
          ensures rest[i].input.reread.value.main.value.cueRetriggerDelay == st.config.cueRetriggerDelay
        {
          assert rest[i] == evs[i + 1];
        }
      }
      assert NoReread(evs) ==> NoReread(rest) by {
        if NoReread(evs) {
          forall i | 0 <= i < |rest| ensures !rest[i].input.ConfigReread? { assert rest[i] == evs[i + 1]; }
        }
      }
      RunSpacesFires(st1, rest);
      RunUnfold(st, evs);
      var ft := FireTimes(Run(st1, rest).1);
      var gap := st.config.cueRetriggerDelay * 1000;
      if fired {
        SpacedCons(st.detector.lastPress, evs[0].now, ft, gap);
        assert LastOr(st.detector.lastPress, [evs[0].now] + ft) == LastOr(evs[0].now, ft);
      } else {
        assert [] + ft == ft;
      }
    }
  }

  /** Spaced trigger times are in increasing order, so any two of them, not
      only neighbours, are at least `gap` apart. */
  lemma {:induction false} SpacedPairwise(t0: int, ts: seq<int>, gap: int, i: int, j: int)
    requires gap >= 0 && SpacedFrom(t0, ts, gap)
    requires 0 <= i < j < |ts|
    ensures ts[j] - ts[i] >= gap
    decreases j - i
  {
    if j > i + 1 {
      SpacedPairwise(t0, ts, gap, i, j - 1);
      assert ts[j] - ts[j - 1] >= gap;
    }
  }

  /** Any two triggers of a run whose rereads keep the retrigger delay are at
      least `cue_retrigger_delay` seconds apart. */
  lemma FiresAreSpaced(st: State, evs: seq<Event>)
    requires DelayKept(st.config.cueRetriggerDelay, evs)
    ensures var ts := FireTimes(Run(st, evs).1);
      forall i, j :: 0 <= i < j < |ts| ==> ts[j] - ts[i] >= st.config.cueRetriggerDelay * 1000
  {
    var ts := FireTimes(Run(st, evs).1);
    RunSpacesFires(st, evs);
    forall i, j | 0 <= i < j < |ts|
      ensures ts[j] - ts[i] >= st.config.cueRetriggerDelay * 1000
    {
      SpacedPairwise(st.detector.lastPress, ts, st.config.cueRetriggerDelay * 1000, i, j);
    }
  }


  /** Consistency holds in every state a run reaches from a consistent one;
      together with `Boot` it holds in every reachable state. */
  lemma {:induction false} RunKeepsConsistent(st: State, evs: seq<Event>)
    requires Consistent(st.detector)
    ensures Consistent(Run(st, evs).0.detector)
    decreases |evs|
  {
    if |evs| > 0 {
      RunKeepsConsistent(Step(st, evs[0]).0, evs[1..]);
    }
  }

  /** A reread that fails to parse or lacks a cue leaves the whole state as it
      was, so the next trigger still names the previous cue. */
  lemma FailedRereadKeepsCue(st: State, now: int, reread: Option<IniDoc>, frame: Frame, from: string, later: int)
    requires !Adoptable(reread)
    ensures Step(st, Event(now, ConfigReread(reread))) == (st, [])
    ensures var acts := HandleFrame(Step(st, Event(now, ConfigReread(reread))).0, frame, from, later).1;
      forall i :: 0 <= i < |acts| && acts[i].Fire? ==> acts[i].oscAddress == CueAddress(st.config)
  {
  }
}
