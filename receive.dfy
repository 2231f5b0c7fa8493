/** What arrives on the wire and what `OSC::Server#receive` then does with
    it, connecting the codec round trips to the server's routing. */
module OscReceive {
  import opened Bytes
  import opened OscValues
  import opened OscEncode
  import opened OscDecode
  import opened OscRoundTrip
  import opened Dispatch
  import opened OscServer

  /** A datagram that does not decode changes nothing and is rescued. */
  lemma MalformedDatagramDropped(q: seq<Bundle>, table: seq<Registration>, data: Bytes,
                                 matches: (Pattern, Bytes) -> bool, raises: Call -> bool)
    requires DecodePacket(data).Err?
    ensures ReceiveSpec(q, table, data, matches, raises) == Step(q, Run([], false))
  {
  }

  /** An encoded message arriving is dispatched to its matching handlers
      and leaves the queue unchanged. */
  lemma ReceiveMessage(q: seq<Bundle>, table: seq<Registration>, m: Message,
                       matches: (Pattern, Bytes) -> bool, raises: Call -> bool)
    requires WirePacket(Msg(m))
    ensures ReceiveSpec(q, table, EncodeMessage(m), matches, raises)
            == Step(q, HandlersFor(table, m, matches, raises))
  {
    PacketRoundTrip(Msg(m));
  }

  /** An encoded bundle with a nil timetag has its elements dispatched in
      order at once; the queue is untouched. */
  lemma ReceiveImmediateBundle(q: seq<Bundle>, table: seq<Registration>, b: Bundle,
                               matches: (Pattern, Bytes) -> bool, raises: Call -> bool)
    requires WireBundle(b) && b.timetag.None?
    ensures ReceiveSpec(q, table, EncodeBundle(b), matches, raises)
            == Step(q, DispatchEachSpec(table, b.elements, matches, raises))
  {
    PacketRoundTrip(Bnd(b));
  }

  /** An encoded bundle with a timetag goes to the end of the queue and
      nothing is dispatched, whatever it contains. */
  lemma ReceiveTimedBundle(q: seq<Bundle>, table: seq<Registration>, b: Bundle,
                           matches: (Pattern, Bytes) -> bool, raises: Call -> bool)
    requires WireBundle(b) && b.timetag.Some?
    ensures ReceiveSpec(q, table, EncodeBundle(b), matches, raises) == Step(q + [b], Run([], true))
  {
    PacketRoundTrip(Bnd(b));
  }

  /** An immediate bundle holding a nested bundle first, with any pattern
      registered, calls no handler at all: the nested bundle reaches
      `dispatch` unflattened and `address` raises. */
  lemma ReceiveNestedBundleCallsNothing(q: seq<Bundle>, table: seq<Registration>, inner: Bundle,
                                        rest: seq<Packet>, matches: (Pattern, Bytes) -> bool,
                                        raises: Call -> bool)
    requires table != []
    requires WireBundle(Bundle(None, [Bnd(inner)] + rest))
    ensures ReceiveSpec(q, table, EncodeBundle(Bundle(None, [Bnd(inner)] + rest)), matches, raises)
            == Step(q, Run([], false))
  {
    ReceiveImmediateBundle(q, table, Bundle(None, [Bnd(inner)] + rest), matches, raises);
    NestedBundleStopsDispatch(table, inner, rest, matches, raises);
  }

  /** The bundle at position i of the queue, queued for time t. A tick before
      t keeps it, whether or not another bundle's dispatch raises. A tick at
      or after t counts it among the due bundles, whose dispatches make the
      tick's calls in queue order. Once that tick completes, the bundle is
      gone from the queue. */
  lemma TickReleasesAtTimetag(q: seq<Bundle>, i: nat, now: int, table: seq<Registration>,
                              matches: (Pattern, Bytes) -> bool, raises: Call -> bool)
    requires i < |q| && q[i].timetag.Some?
    ensures var s := Release(q, now, BundleDispatch(table, matches, raises));
            now < TimeValue(q[i].timetag.value) ==> q[i] in s.queue
    ensures var s := Release(q, now, BundleDispatch(table, matches, raises));
            TimeValue(q[i].timetag.value) <= now ==>
              && q[i] in DueAt(q, now)
              && s.run == DispatchBundles(DueAt(q, now), BundleDispatch(table, matches, raises))
              && (s.run.completed ==> q[i] !in s.queue)
  {
    var d := BundleDispatch(table, matches, raises);
    var s := Release(q, now, d);
    DuePendingMembers(q, now);
    ReleaseDispatchesDueInOrder(q, now, d);
    if s.run.completed {
      ReleaseKeepsPending(q, now, d);
    } else if !Due(q[i], now) {
      var k := ReleaseStopKeepsRest(q, now, d);
      if i < k {
        DuePendingMembers(q[..k], now);
        assert q[..k][i] == q[i];
      } else {
        assert q[k..][i - k] == q[i];
      }
    }
  }
}
