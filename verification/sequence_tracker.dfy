/** The per-board packet counter: it remembers the last packet number seen
    from every board and asks a board for its full status whenever the next
    number is not the previous one plus one (a lost packet or a reboot). */
module SequenceTracker {
  import opened Wrappers
  import opened Actions

  /** Last packet number seen, per board name. */
  type Counters = map<string, int>

  /** The guard `parsed.host && parsed.pno > -1`. */
  predicate Counted(host: Option<string>, pno: Option<int>) {
    Truthy(host) && pno.Some? && pno.value > -1
  }

  /** One observation of `(host, pno)` from the datagram source `from`:
      the new counters and the status requests to send. */
  function Observe(counters: Counters, host: Option<string>, pno: Option<int>, from: string)
    : (r: (Counters, seq<Action>))
    // a counted packet records its number, gap or not
    ensures Counted(host, pno) ==> host.value in r.0 && r.0[host.value] == pno.value
    // no other board's counter changes, and no board is added or dropped besides the sender
    ensures forall h :: h in counters && !(Counted(host, pno) && h == host.value) ==>
              h in r.0 && r.0[h] == counters[h]
    ensures forall h :: h in r.0 ==> h in counters || (Counted(host, pno) && h == host.value)
    // at most one request, always to the sender
    ensures r.1 == [] || r.1 == [SendStatus(from, StatusPort)]
    // a request exactly when a known board's number does not follow on
    ensures r.1 != [] <==>
              Counted(host, pno) && host.value in counters && counters[host.value] + 1 != pno.value
  {
    if !Counted(host, pno) then (counters, [])
    else
      var h := host.value;
      var requests := if h in counters && counters[h] + 1 != pno.value
                      then [SendStatus(from, StatusPort)] else [];
      (counters[h := pno.value], requests)
  }

  /** The first packet from a board never triggers a status request. */
  lemma FirstObservationIsQuiet(counters: Counters, host: string, pno: Option<int>, from: string)
    requires host !in counters
    ensures Observe(counters, Some(host), pno, from).1 == []
  {
  }

  /** Reference count of discontinuities in a sequence of packet numbers:
      the positions whose number is not its predecessor's plus one. */
  function GapCount(pnos: seq<int>): nat {
    if |pnos| < 2 then 0
    else (if pnos[0] + 1 != pnos[1] then 1 else 0) + GapCount(pnos[1..])
  }

  /** The requests sent while observing `pnos` from one board in order. */
  function ObserveRun(counters: Counters, host: string, pnos: seq<int>, from: string)
    : (r: (Counters, seq<Action>))
    decreases |pnos|
  {
    if |pnos| == 0 then (counters, [])
    else
      var (c1, a1) := Observe(counters, Some(host), Some(pnos[0]), from);
      var (c2, a2) := ObserveRun(c1, host, pnos[1..], from);
      (c2, a1 + a2)
  }

  /** The board's own earlier number, if it has been seen. */
  function Prior(counters: Counters, host: string): seq<int> {
    if host in counters then [counters[host]] else []
  }

  /** Over any run of packets from one board, the tracker sends exactly one
      request per discontinuity (counting against the number it already
      held), every request goes to the sender, the counter ends at the last
      number, and other boards' counters are untouched. */
  lemma {:induction false} ObserveRunCountsGaps(counters: Counters, host: string, pnos: seq<int>, from: string)
    requires host != ""
    requires forall i :: 0 <= i < |pnos| ==> pnos[i] >= 0
    ensures var r := ObserveRun(counters, host, pnos, from);
      && |r.1| == GapCount(Prior(counters, host) + pnos)
      && (forall i :: 0 <= i < |r.1| ==> r.1[i] == SendStatus(from, StatusPort))
      && (|pnos| > 0 ==> host in r.0 && r.0[host] == pnos[|pnos| - 1])
      && (forall h :: h != host ==> (h in r.0 <==> h in counters))
      && (forall h :: h != host && h in counters ==> r.0[h] == counters[h])
    decreases |pnos|
  {
    if |pnos| > 0 {
      var (c1, a1) := Observe(counters, Some(host), Some(pnos[0]), from);
      var rest := pnos[1..];
      assert forall i :: 0 <= i < |rest| ==> rest[i] >= 0 by {
        forall i | 0 <= i < |rest| ensures rest[i] >= 0 { assert rest[i] == pnos[i + 1]; }
      }
      ObserveRunCountsGaps(c1, host, rest, from);
      assert Prior(c1, host) == [pnos[0]];
      var all := Prior(counters, host) + pnos;
      if host in counters {
        assert all[1..] == [pnos[0]] + rest;
        assert |a1| == (if all[0] + 1 != all[1] then 1 else 0);
      } else {
        assert all == [pnos[0]] + rest;
        assert a1 == [];
      }
    }
  }

  /** A board that is new to the tracker: the number of requests is the
      number of discontinuities in its own numbers. */
  lemma FreshBoardGaps(host: string, pnos: seq<int>, from: string)
    requires host != ""
    requires forall i :: 0 <= i < |pnos| ==> pnos[i] >= 0
    ensures |ObserveRun(map[], host, pnos, from).1| == GapCount(pnos)
  {
    ObserveRunCountsGaps(map[], host, pnos, from);
    assert Prior(map[], host) + pnos == pnos;
  }

  /** Packet numbers 0, 1, 2, 4 from board "A": one request, to A's address. */
  lemma LostPacketScenario(from: string)
    ensures ObserveRun(map[], "A", [0, 1, 2, 4], from).1 == [SendStatus(from, StatusPort)]
  {
    var s := [0, 1, 2, 4];
    FreshBoardGaps("A", s, from);
    assert GapCount(s[3..]) == 0;
    assert GapCount(s[2..]) == 1;
    assert GapCount(s[1..]) == 1;
    assert GapCount(s) == 1;
    ObserveRunCountsGaps(map[], "A", s, from);
    assert Prior(map[], "A") + s == s;
  }
}
