/** Decoded inbound datagrams. The board sends one JSON object per datagram,
    with its name in `host`, a packet number in `pno` and its input levels in
    the `gpi` object. */
module Packets {
  import opened Wrappers

  /** One decoded JSON value, reduced to the three fields the bridge reads.
      `gpi` holds the levels in key order, each already compared `== 1`. */
  datatype Snapshot = Snapshot(host: Option<string>, pno: Option<int>, gpi: Option<seq<bool>>)

  /** The initial `lastParsed = {}`. */
  const EmptySnapshot: Snapshot := Snapshot(None, None, None)

  /** The result of `JSON.parse` on one datagram: a parse error, a falsy JSON
      value (`null`, `false`, `0`, `""`), or a truthy value. */
  datatype Frame = Malformed | Falsy | Parsed(snapshot: Snapshot)

  /** The all-low placeholder shown one second after the socket is bound. */
  const PlaceholderSnapshot: Snapshot :=
    Snapshot(Some("GPIOoE-??????"), Some(0), Some([false, false, false, false, false, false, false, false]))
}
