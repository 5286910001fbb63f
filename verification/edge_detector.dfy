/** `updateInfo`: rising-edge detection on the configured input with a
    retrigger cooldown, and a dry-run mode that re-evaluates without firing. */
module EdgeDetector {
  import opened Wrappers
  import opened Actions
  import opened Config
  import opened Packets

  /** The state `updateInfo` reads and writes: the last evaluated levels,
      the time of the last trigger (milliseconds) and the last snapshot. */
  datatype Detector = Detector(lastGpi: seq<bool>, lastPress: int, lastParsed: Snapshot)

  /** Eight low channels, no trigger yet, `lastParsed = {}`. */
  const InitialDetector: Detector :=
    Detector([false, false, false, false, false, false, false, false], 0, EmptySnapshot)

  /** Every level is pushed onto the `gpi` array twice, once before and once
      after the edge test, so the array that becomes `lastGpi` holds the
      levels followed by a second copy of them. */
  function Doubled(levels: seq<bool>): (r: seq<bool>)
    ensures |r| == 2 * |levels|
    ensures forall i :: 0 <= i < |levels| ==> r[i] == levels[i] && r[i + |levels|] == levels[i]
  {
    levels + levels
  }

  /** Reading `levels[port]` as a truth value: an index outside the array,
      or a NaN index, yields `undefined`, which is falsy. */
  predicate Level(levels: seq<bool>, port: Option<int>) {
    port.Some? && 0 <= port.value < |levels| && levels[port.value]
  }

  /** `lastGpi[PORT] != gpi[PORT] && gpi[PORT]`, where `gpi` holds only the
      first copy of the levels at the time of the test. */
  predicate RisingEdge(d: Detector, cfg: MainSection, levels: seq<bool>) {
    !Level(d.lastGpi, Port(cfg)) && Level(levels, Port(cfg))
  }

  /** `now - lastPress >= cue_retrigger_delay * 1000`. */
  predicate CooledDown(d: Detector, cfg: MainSection, now: int) {
    now - d.lastPress >= cfg.cueRetriggerDelay * 1000
  }

  /** `lastGpi` is the doubled level array of `lastParsed` whenever that
      snapshot carried levels. Every call of `UpdateInfo` establishes it. */
  predicate Consistent(d: Detector) {
    d.lastParsed.gpi.Some? ==> d.lastGpi == Doubled(d.lastParsed.gpi.value)
  }

  /** One evaluation of `parsed` at time `now`; with `dryRun` it never fires. */
  function UpdateInfo(d: Detector, cfg: MainSection, parsed: Snapshot, now: int, dryRun: bool)
    : (r: (Detector, seq<Action>))
    // fires exactly on a rising edge after the cooldown, outside dry-run
    ensures Fired(r.1) <==>
              parsed.gpi.Some? && !dryRun && RisingEdge(d, cfg, parsed.gpi.value) && CooledDown(d, cfg, now)
    ensures r.1 == [] || r.1 == [FireAction(cfg)]
    // a fire restarts the cooldown; otherwise the trigger time stays
    ensures r.0.lastPress == (if Fired(r.1) then now else d.lastPress)
    // dry-run never fires and never touches the trigger time
    ensures dryRun ==> r.1 == [] && r.0.lastPress == d.lastPress
    // without levels nothing but lastParsed changes
    ensures parsed.gpi.None? ==> r.0 == d.(lastParsed := parsed) && r.1 == []
    // with levels, the new levels replace the old whether or not it fired
    ensures parsed.gpi.Some? ==> r.0.lastGpi == Doubled(parsed.gpi.value)
    ensures r.0.lastParsed == parsed
    ensures Consistent(r.0)
  {
    if parsed.gpi.None? then (d.(lastParsed := parsed), [])
    else
      var levels := parsed.gpi.value;
      var fire := !dryRun && RisingEdge(d, cfg, levels) && CooledDown(d, cfg, now);
      var acts := if fire then [FireAction(cfg)] else [];
      assert Fired(acts) <==> fire by {
        if fire { assert acts[0].Fire?; }
      }
      (Detector(Doubled(levels), if fire then now else d.lastPress, parsed), acts)
  }

  /** Re-evaluating the last snapshot in dry-run mode changes nothing in a
      consistent detector: the display refresh is free of side effects. */
  lemma DryRunOfLastIsIdle(d: Detector, cfg: MainSection, now: int)
    requires Consistent(d)
    ensures UpdateInfo(d, cfg, d.lastParsed, now, true) == (d, [])
  {
  }

  /** In terms of two successive snapshots: with the previous levels `prev`
      held in a consistent detector and a channel index both arrays contain,
      the call fires iff that channel went from low to high and the cooldown
      has elapsed. */
  lemma {:induction false} FireIffRisingEdge(d: Detector, cfg: MainSection, parsed: Snapshot, now: int)
    requires Consistent(d)
    requires d.lastParsed.gpi.Some? && parsed.gpi.Some?
    requires cfg.pin.Some? && 1 <= cfg.pin.value
    requires cfg.pin.value <= |d.lastParsed.gpi.value| && cfg.pin.value <= |parsed.gpi.value|
    ensures var prev, cur, k := d.lastParsed.gpi.value, parsed.gpi.value, cfg.pin.value - 1;
      Fired(UpdateInfo(d, cfg, parsed, now, false).1) <==>
        !prev[k] && cur[k] && now - d.lastPress >= cfg.cueRetriggerDelay * 1000
  {
    var k := cfg.pin.value - 1;
    assert d.lastGpi[k] == d.lastParsed.gpi.value[k];
  }

  /** Before any snapshot with levels, the previous levels are all low, so a
      channel that is already high on the first packet is a rising edge. */
  lemma {:induction false} FirstHighLevelFires(cfg: MainSection, parsed: Snapshot, now: int)
    requires parsed.gpi.Some?
    requires cfg.pin.Some? && 1 <= cfg.pin.value <= 8 && cfg.pin.value <= |parsed.gpi.value|
    ensures Fired(UpdateInfo(InitialDetector, cfg, parsed, now, false).1) <==>
              parsed.gpi.value[cfg.pin.value - 1] && now >= cfg.cueRetriggerDelay * 1000
  {
    var k := cfg.pin.value - 1;
    assert !InitialDetector.lastGpi[k];
  }

  /** A channel index that the snapshot does not contain (a NaN pin, or a pin
      outside the channels) never fires. */
  lemma MissingChannelNeverFires(d: Detector, cfg: MainSection, parsed: Snapshot, now: int, dryRun: bool)
    requires parsed.gpi.Some?
    requires cfg.pin.None? || cfg.pin.value < 1 || cfg.pin.value > |parsed.gpi.value|
    ensures !Fired(UpdateInfo(d, cfg, parsed, now, dryRun).1)
  {
  }

  /** A fire leaves the monitored level high, so the evaluation right after
      it cannot fire, whatever it evaluates, dry run or not. */
  lemma {:induction false} NoImmediateRefire(
    d: Detector, cfg: MainSection, p1: Snapshot, t1: int, p: Snapshot, t: int, dry: bool)
    requires Fired(UpdateInfo(d, cfg, p1, t1, false).1)
    ensures !Fired(UpdateInfo(UpdateInfo(d, cfg, p1, t1, false).0, cfg, p, t, dry).1)
  {
    var d1 := UpdateInfo(d, cfg, p1, t1, false).0;
    var k := Port(cfg).value;
    assert d1.lastGpi[k] == p1.gpi.value[k];
  }

  /** After a fire and any evaluation in between that does not fire, a
      second fire needs `delay * 1000` milliseconds after the first. */
  lemma {:induction false} RefireNeedsCooldown(
    d: Detector, cfg: MainSection, p1: Snapshot, t1: int, p2: Snapshot, t2: int, dry2: bool, p3: Snapshot, t3: int)
    requires Fired(UpdateInfo(d, cfg, p1, t1, false).1)
    requires !Fired(UpdateInfo(UpdateInfo(d, cfg, p1, t1, false).0, cfg, p2, t2, dry2).1)
    requires Fired(UpdateInfo(UpdateInfo(UpdateInfo(d, cfg, p1, t1, false).0, cfg, p2, t2, dry2).0, cfg, p3, t3, false).1)
    ensures t3 - t1 >= cfg.cueRetriggerDelay * 1000
  {
    var d1 := UpdateInfo(d, cfg, p1, t1, false).0;
    var d2 := UpdateInfo(d1, cfg, p2, t2, dry2).0;
    assert d1.lastPress == t1 && d2.lastPress == t1;
  }

  /** Channel 3 monitored with a five-second cooldown, starting at time `t`
      (milliseconds, past the first five seconds of the clock): low, high
      (fires), low, high two seconds later (held back), low, and high five
      seconds after the first trigger (fires again). */
  lemma CooldownScenario(cfg: MainSection, t: int)
    requires cfg.pin == Some(3) && cfg.cueRetriggerDelay == 5
    requires t >= 5000
    ensures var lo := Snapshot(Some("A"), None, Some([false, false, false, false, false, false, false, false]));
      var hi := Snapshot(Some("A"), None, Some([false, false, true, false, false, false, false, false]));
      var r1 := UpdateInfo(InitialDetector, cfg, lo, t, false);
      var r2 := UpdateInfo(r1.0, cfg, hi, t + 1000, false);
      var r3 := UpdateInfo(r2.0, cfg, lo, t + 2000, false);
      var r4 := UpdateInfo(r3.0, cfg, hi, t + 3000, false);
      var r5 := UpdateInfo(r4.0, cfg, lo, t + 4000, false);
      var r6 := UpdateInfo(r5.0, cfg, hi, t + 6000, false);
      && r1.1 == [] && r2.1 == [FireAction(cfg)] && r3.1 == []
      && r4.1 == [] && r5.1 == [] && r6.1 == [FireAction(cfg)]
  {
  }
}
