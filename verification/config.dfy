/** The `[main]` section of config.ini as the bridge reads it, the one-time
    startup validation, and the rule by which the once-a-second reread is
    adopted or ignored. */
module Config {
  import opened Wrappers
  import opened Actions

  /** The fields of `[main]` the bridge consumes.
      `pin` is the 1-based input channel; `None` stands for a missing value,
      which JavaScript turns into NaN.
      `qlabPort` is `None` when the field is missing or empty; a port outside
      1..65535, which makes the OSC send throw, is not modelled. */
  datatype MainSection = MainSection(
    pin: Option<int>,
    cueRetriggerDelay: nat,
    board: Option<string>,
    cue: Option<string>,
    qlabIp: Option<string>,
    qlabPort: Option<int>)

  /** A parsed config.ini; `main` is absent when the file has no `[main]` section. */
  datatype IniDoc = IniDoc(main: Option<MainSection>)

  datatype StartupError = NoMainSection | InvalidPin(pin: int)

  /** The startup range test `pin < 1 || pin > 8`. A NaN pin compares false
      both ways, so a missing pin is not rejected. */
  predicate PinRejected(pin: Option<int>) {
    pin.Some? && (pin.value < 1 || pin.value > 8)
  }

  /** Startup: the process exits unless the file parsed, has a `[main]`
      section and its pin is not rejected. `None` stands for a file that
      could not be read or parsed. */
  function Startup(doc: Option<IniDoc>): (r: Result<MainSection, StartupError>)
    ensures r.Success? <==> doc.Some? && doc.value.main.Some? && !PinRejected(doc.value.main.value.pin)
    ensures r.Success? ==> doc == Some(IniDoc(Some(r.value)))
    ensures r.Success? && r.value.pin.Some? ==> 1 <= r.value.pin.value <= 8
    ensures doc.Some? && doc.value.main.Some? && PinRejected(doc.value.main.value.pin) ==>
              r == Failure(InvalidPin(doc.value.main.value.pin.value))
    ensures r.Failure? && r.error.InvalidPin? ==>
              doc.Some? && doc.value.main.Some? && doc.value.main.value.pin == Some(r.error.pin)
  {
    if doc.None? || doc.value.main.None? then Failure(NoMainSection)
    else
      var m := doc.value.main.value;
      if PinRejected(m.pin) then Failure(InvalidPin(m.pin.value)) else Success(m)
  }

  /** A reread is adopted only when it parsed and its `[main]` has a `cue`. */
  predicate Adoptable(reread: Option<IniDoc>) {
    reread.Some? && reread.value.main.Some? && reread.value.main.value.cue.Some?
  }

  /** The once-a-second reload: keep `current` unless the reread is adoptable.
      The pin is not range-checked again. */
  function Reload(current: MainSection, reread: Option<IniDoc>): (r: MainSection)
    ensures r == current || (reread == Some(IniDoc(Some(r))) && r.cue.Some?)
    ensures Adoptable(reread) ==> reread == Some(IniDoc(Some(r)))
    ensures !Adoptable(reread) ==> r == current
  {
    if Adoptable(reread) then reread.value.main.value else current
  }

  /** Reading the same file twice in a row changes nothing the second time. */
  lemma ReloadIdempotent(current: MainSection, reread: Option<IniDoc>)
    ensures Reload(Reload(current, reread), reread) == Reload(current, reread)
  {
  }

  /** Once the active config names a cue, no sequence of rereads loses it. */
  lemma ReloadKeepsCue(current: MainSection, reread: Option<IniDoc>)
    requires current.cue.Some?
    ensures Reload(current, reread).cue.Some?
  {
  }

  /** The zero-based channel index `parseInt(pin, 10) - 1`; `None` is NaN. */
  function Port(m: MainSection): (r: Option<int>)
    ensures r.Some? <==> m.pin.Some?
    ensures r.Some? ==> r.value + 1 == m.pin.value
  {
    if m.pin.Some? then Some(m.pin.value - 1) else None
  }

  /** An index accepted at startup addresses one of the eight channels. */
  lemma StartupPortInRange(doc: Option<IniDoc>)
    requires Startup(doc).Success?
    requires Startup(doc).value.pin.Some?
    ensures var p := Port(Startup(doc).value); p.Some? && 0 <= p.value < 8
  {
  }

  /** The text interpolated for `config.main.cue`, which prints as
      "undefined" when the startup config has no cue. */
  function CueText(cue: Option<string>): string {
    if cue.Some? then cue.value else "undefined"
  }

  /** The OSC address `/cue/<cue>/start`. */
  function CueAddress(m: MainSection): (r: string)
    ensures |r| == |CueText(m.cue)| + 11
    ensures r[..5] == "/cue/" && r[|r| - 6..] == "/start"
    ensures r[5..|r| - 6] == CueText(m.cue)
  {
    "/cue/" + CueText(m.cue) + "/start"
  }

  /** The cue start command, with the default host and port filled in:
      `qlab_ip || '127.0.0.1'` and `qlab_port ? parseInt(qlab_port) : 53000`. */
  function FireAction(m: MainSection): (r: Action)
    ensures r.Fire? && r.oscAddress == CueAddress(m)
    ensures Truthy(m.qlabIp) ==> r.host == m.qlabIp.value
    ensures !Truthy(m.qlabIp) ==> r.host == DefaultQlabHost
    ensures m.qlabPort.Some? ==> r.port == m.qlabPort.value
    ensures m.qlabPort.None? ==> r.port == DefaultQlabPort
  {
    Fire(CueAddress(m),
         if Truthy(m.qlabIp) then m.qlabIp.value else DefaultQlabHost,
         if m.qlabPort.Some? then m.qlabPort.value else DefaultQlabPort)
  }
}
