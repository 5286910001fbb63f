# gpio2qlab bridge — Dafny model

gpio2qlab listens for UDP telemetry from a GPIO-over-Ethernet board. Each
datagram is a JSON object with the board name (`host`), a packet number
(`pno`) and the levels of eight inputs (`gpi`). When the configured input
goes from low to high, the bridge sends an OSC `/cue/<cue>/start` command to
QLab. A retrigger cooldown stops repeated triggers. Independently of this,
the bridge keeps a per-board packet counter and asks a board for its full
status when a packet number is missing or the board has rebooted.

This project models the decision logic of `main.js` as a pure state machine.
The state record `Bridge.State` holds:

- the per-board packet counters;
- the edge detector's `lastGpi`, `lastPress` and `lastParsed`;
- the active `[main]` configuration.

Every handler takes the state, an input and the current time in milliseconds
(`now`). It returns the new state and a list of actions:
`SendStatus(address, 1337)` for a status request and
`Fire(oscAddress, host, port)` for the cue command.

Modules, one per part of `main.js`:

- `Wrappers`: `Option`, `Result`, and JavaScript truthiness of an optional string.
- `Actions`: the outbound actions, the status port and the default QLab host and port.
- `Config`: the `[main]` section, the one-time startup validation, the once-a-second reload rule, the channel index and the cue's OSC address.
- `Packets`: decoded datagrams: a parse error, a falsy JSON value, or a snapshot with `host`, `pno` and `gpi`.
- `SequenceTracker`: the packet counter, and a reference count of packet-number discontinuities.
- `EdgeDetector`: `updateInfo`. It does rising-edge detection with the cooldown, and has a dry-run mode.
- `Bridge`: startup, the datagram handler with its board filter, the display refresh, the placeholder snapshot, config rereads, and runs over event sequences.

Behaviour of the code worth knowing:

- `lastGpi` starts all low, and the placeholder shown one second after startup is all low. A channel that is already high in the first real packet is therefore a rising edge and fires (`EdgeDetector.FirstHighLevelFires`). The same holds after the placeholder (`Bridge.PlaceholderRearms`).
- The level array is filled twice, so `lastGpi` holds the levels followed by a copy of them (`EdgeDetector.Doubled`). The edge test reads the new levels before the second copy is appended.
- A reloaded configuration is not range-checked for its pin. A pin outside the channels, or a missing pin (NaN), never fires (`EdgeDetector.MissingChannelNeverFires`). A missing pin also passes the startup check, because NaN compares false both ways.
- The dry run used by the display refresh still rewrites `lastGpi` and `lastParsed`. In every reachable state this rewrites them with the values they already hold, so the refresh is a no-op (`Bridge.DisplayTickIsIdle`, `Bridge.RunKeepsConsistent`).

## Model

| member | source | states |
|---|---|---|
| Config.Startup | main.js:10-20 | Startup succeeds iff the file parsed, has a `[main]` section and its pin is not `< 1` or `> 8`. A present accepted pin is in 1..8. A rejected pin is always reported as `InvalidPin` with its value, never as a missing section. A missing pin is accepted. |
| Config.StartupPortInRange | main.js:17-20 | For a config accepted at startup with a pin, `PORT = pin - 1` is a valid index 0..7 into the eight channel levels. |
| Config.Reload | main.js:96-105 | The reread is adopted iff it parsed and its `[main]` defines `cue`. Otherwise the previous config stays in force unchanged. An adopted config always names a cue. |
| Config.ReloadIdempotent | main.js:97-102 | Applying the same reread twice gives the same config as applying it once. |
| Config.ReloadKeepsCue | main.js:100-102 | Once the active config names a cue, no reread can make it lose one. |
| Config.Port | main.js:52 | The channel index is present iff the pin is, and it is one less than the pin. A missing pin gives no index, as NaN does. |
| Config.FireAction | main.js:69-72 | The trigger is a `Fire` to the cue's OSC address. The host is `qlab_ip` when it is a non-empty string and `127.0.0.1` otherwise. The port is `qlab_port` when set and 53000 otherwise. |
| Config.CueAddress | main.js:70 | The OSC address is `/cue/` + cue + `/start`, and the cue text is recovered between that prefix and suffix. A missing cue renders as `undefined`. |
| SequenceTracker.Observe | main.js:113-130 | A packet with a non-empty host and `pno > -1` sets that host's counter to `pno`, gap or not. No other counter changes or appears. Any other packet leaves the map untouched. At most one request is sent, always to the sender on port 1337. It is sent iff the host was already known and its counter plus one differs from `pno`. |
| SequenceTracker.FirstObservationIsQuiet | main.js:114-116 | The first packet from a board never produces a status request. |
| SequenceTracker.ObserveRunCountsGaps | main.js:113-130 | Over any sequence of counted packets from one board (non-empty host, non-negative numbers), the number of requests equals the independently defined `GapCount` of the numbers, counted against the number the board already had. Every request goes to the sender, the counter ends at the last number, and other boards are untouched. |
| SequenceTracker.FreshBoardGaps | main.js:113-130 | For a board seen for the first time, the number of requests is the number of positions whose packet number is not its predecessor plus one. |
| SequenceTracker.LostPacketScenario | main.js:113-129 | Packet numbers 0, 1, 2, 4 from board A produce exactly one status request, addressed to A. |
| EdgeDetector.Doubled | main.js:61-63 | The stored level array is twice as long as the levels. Each level appears at its own index and again one copy-length later, as the two push loops (main.js:62 and 80) produce. |
| EdgeDetector.UpdateInfo | main.js:47-89 | A Fire happens iff the snapshot has levels, it is not a dry run, the previous level at `PORT` is not high, the new level is high, and `now - lastPress >= delay * 1000`. A Fire sets `lastPress := now`; otherwise `lastPress` stays. A dry run never fires and never moves `lastPress`. Without levels only `lastParsed` changes. With levels, `lastGpi` becomes the doubled level array whether or not it fired. `lastParsed` always becomes the snapshot. |
| EdgeDetector.DryRunOfLastIsIdle | main.js:65-88 | Re-evaluating the last snapshot in dry-run mode leaves a consistent detector exactly as it was and emits nothing. |
| EdgeDetector.FireIffRisingEdge | main.js:62-76 | Take two successive snapshots that both contain the monitored channel. A call fires iff that channel was low in the previous snapshot, is high in the new one, and the cooldown has elapsed. |
| EdgeDetector.FirstHighLevelFires | main.js:40-73 | From the initial all-low state, a packet fires iff the monitored channel is high and `now >= delay * 1000`. |
| EdgeDetector.MissingChannelNeverFires | main.js:52-65 | A NaN pin, or a pin naming a channel the snapshot does not contain, never fires. |
| EdgeDetector.NoImmediateRefire | main.js:65-86 | After a fire, the very next evaluation cannot fire, whatever snapshot, time or dry-run flag it has, because the fired level is now the stored level. |
| EdgeDetector.RefireNeedsCooldown | main.js:65-86 | If a non-firing evaluation (dry run or not) comes between two fires, the second fire is at least `delay * 1000` ms after the first. |
| EdgeDetector.CooldownScenario | main.js:56-76 | With channel 3 and a 5 s cooldown: low, high (fires), low, high after 2 s (held back), low, high 5 s after the first trigger (fires again). |
| Bridge.Boot | main.js:10-43 | The bridge starts iff the startup check passes. It starts with no counters, eight low levels, `lastPress = 0`, an empty last snapshot and the validated config. |
| Bridge.Admits | main.js:132-136 | With no board configured (missing or empty), every snapshot passes the filter. With a board configured, exactly the snapshots whose host is that board pass. |
| Bridge.HandleFrame | main.js:108-145 | A malformed or falsy datagram changes nothing. For any parsed datagram, the counters are exactly those of the packet counter. A filtered datagram leaves the detector untouched, and its actions are exactly the counter's status requests, so it never fires. An admitted one is evaluated by `updateInfo` outside dry-run mode. The detector becomes that evaluation's result, and its actions are the counter's status requests followed by the evaluation's trigger, if any. Any Fire names the configured cue. |
| Bridge.AdmittedEdgeFires | main.js:132-138 | A datagram the filter admits, whose levels show a rising edge after the cooldown, fires the configured cue and moves `lastPress` to its time. |
| Bridge.DisplayTick | main.js:91-94 | The one-second refresh never fires. It keeps `lastPress`, `lastParsed`, the counters and the config. |
| Bridge.DisplayTickIsIdle | main.js:91-94 | In a consistent state the refresh changes nothing at all. |
| Bridge.ShowPlaceholder | main.js:176-192 | The all-low placeholder never fires, leaves every previous level low, and keeps `lastPress`. |
| Bridge.PlaceholderRearms | main.js:176-192 | After the all-low placeholder, an admitted packet containing the monitored channel fires iff that channel is high and the cooldown has elapsed. This holds even if the channel was already high before the placeholder. |
| Bridge.Step | main.js:91-145 | A datagram event is handled exactly as the message handler does, a refresh event as the dry-run refresh, and a placeholder event as the placeholder evaluation. Only a datagram can fire, at most once per event, as its last action. A Fire happens only after the cooldown elapsed, and it moves `lastPress` to the event time. Only a reread changes the config, following `Reload`. Consistency is preserved. |
| Bridge.RunSpacesFires | main.js:65-73 | Over any run of events whose adopted rereads keep `cue_retrigger_delay` (failed rereads, rereads without a cue, and rereads of an unchanged file all qualify), each trigger is at least `delay * 1000` ms after the previous one, or after the initial `lastPress`. The final `lastPress` is the last trigger time, and the delay is unchanged at the end. |
| Bridge.FiresAreSpaced | main.js:65-73 | Any two triggers of such a run, not only neighbours, are at least `delay * 1000` ms apart. |
| Bridge.RunKeepsConsistent | main.js:86-88 | Every run keeps `lastGpi` equal to the doubled levels of `lastParsed` whenever that snapshot has levels. |
| Bridge.FailedRereadKeepsCue | main.js:97-105 | A reread that fails to parse or lacks `cue` leaves the whole state unchanged. Any later trigger still uses the previous cue's address. |

## Left out

- UDP socket creation, binding, multicast membership, TTL and bind errors (main.js:3, 148-173): operating-system network I/O.
- OSC port setup and the `osc.send` transport (main.js:25-36, 69-72): only the emitted `Fire` action, with its default host and port, is modelled.
- Reading config.ini, `ini.parse`, `JSON.parse` and the error.log writes (main.js:10, 98-99, 110, 140-144, 150): parse outcomes are inputs (`Option<IniDoc>`, `Frame`). A malformed datagram is modelled as changing nothing; its error.log line is not emitted.
- `setInterval` / `setTimeout` scheduling (main.js:91, 176, 194): each tick is an explicit event with its time. The asynchronous reread is a separate `ConfigReread` event, so any interleaving with datagrams can be expressed.
- The 100 ms unicast keepalive to `unicast_ip` (main.js:194-198): a periodic send that touches no state.
- Terminal output: the ANSI line, the coloured level boxes and the "Must wait N seconds" text (main.js:13, 18, 23, 49-51, 54, 57-58, 79, 84). This is presentation only, so the display refresh's only modelled effect is on the state.
- The clock is read once per event. The source reads `Date.now()` separately for the cooldown test (main.js:66) and for the new `lastPress` (main.js:73). A later `lastPress` could only widen the gap to the next trigger.
- `process.exit` is modelled as `Boot` returning a `Failure`.
- Bridge.RunSpacesFires: the spacing is proved only for runs in which no adopted reread changes `cue_retrigger_delay`. Across an adopted change of the delay, each trigger still waits the delay in force when it fires, after the previous trigger (`Bridge.Step` states this per event). No single bound covers such a whole run, because lowering the delay lets later triggers come closer together.
- EdgeDetector.UpdateInfo: the OSC send is assumed not to throw. In the source, `osc.send` runs before `lastPress`, `lastGpi` and `lastParsed` are assigned (main.js:69-73, 86-88). A send that throws, for instance for a `qlab_port` outside 1..65535, unwinds `updateInfo` into the handler's catch (main.js:140-144). That leaves those three fields untouched, so the edge repeats on the next packet without a cooldown. The model fires and starts the cooldown instead.
- JavaScript coercions are not reproduced:
  - `cue_retrigger_delay` is a natural number of seconds. In the source a missing or non-numeric delay makes every cooldown comparison false, so nothing ever fires. An empty `cue_retrigger_delay =` is different: it parses to `""`, which multiplies to 0, so it behaves as delay 0 and the model represents it exactly.
  - `(cue_retrigger_delay + 1)` (main.js:92) is a numeric sum. In the source it is string concatenation, so the refresh window is longer. The refresh is a no-op on state either way.
  - Levels are booleans instead of the loose `== 1` test.
  - `pin` is an integer or missing (NaN). Strings such as `3.5` or `3abc` are not modelled. Neither is an empty `pin =`: it parses to `""`, which compares as 0, so the source rejects it at startup.
  - `host` is a string or missing. Host names that collide with inherited object properties (`constructor`, `__proto__`) are treated like any other name. In the source, such a name is never `undefined` in the counter object. `pno` is an integer or missing. `qlab_port` is an integer or unset.
