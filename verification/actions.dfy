/** Outbound effects of the bridge, returned by its step functions instead of
    being performed on a socket. */
module Actions {

  /** UDP port on which a GPIO board listens for the `{"status":"get"}` request. */
  const StatusPort: int := 1337

  /** Endpoint used for the show-control (OSC) command when none is configured. */
  const DefaultQlabHost: string := "127.0.0.1"
  const DefaultQlabPort: int := 53000

  datatype Action =
    /** Ask the board at `address` to resend its full status. */
    | SendStatus(address: string, port: int)
    /** Send the OSC message `oscAddress` (no arguments) to `host:port`. */
    | Fire(oscAddress: string, host: string, port: int)

  /** Some action in `acts` is a cue trigger. */
  predicate Fired(acts: seq<Action>) {
    exists i :: 0 <= i < |acts| && acts[i].Fire?
  }
}
