/** What the Server's handler table, dispatch loop and scheduling queue
    compute, as functions of the state they read: `Server#dispatch`, the
    `decoded.each { |m| dispatch m }` loops, the `delete_if` body of
    `check_queue`, and the `Array#delete` of `delete_pattern`. */
module Dispatch {
  import opened Bytes
  import opened OscValues

  /** The object handed to `add_pattern` (a Regexp in the relay). Matching is
      Ruby's `pat === address`, which the Server receives as a parameter. */
  datatype Pattern = Pattern(id: nat)

  /** The block handed to `add_pattern`. */
  type HandlerId = nat

  /** One `[pattern, block]` entry of `@patterns`. */
  datatype Registration = Registration(pattern: Pattern, handler: HandlerId)

  /** The object handed to `delete_pattern`: a bare pattern (what the
      method's name suggests) or a whole `[pattern, block]` pair. */
  datatype DeleteArg = BarePattern(pattern: Pattern) | Pair(entry: Registration)

  /** One handler invocation, `block.call(*message.to_a)`. */
  datatype Call = Call(handler: HandlerId, args: seq<Arg>)

  /** The handler calls a pass made, and whether it ran to the end;
      `completed` is false when an exception escaped from it. */
  datatype Run = Run(calls: seq<Call>, completed: bool)

  /** Running `first` and then, if it did not raise, `next`. */
  function Then(first: Run, next: Run): Run
  {
    if first.completed then Run(first.calls + next.calls, next.completed) else first
  }

  lemma ThenAssociative(a: Run, b: Run, c: Run)
    ensures Then(Then(a, b), c) == Then(a, Then(b, c))
  {
  }

  /** The entries whose pattern matches `address`, in registration order. */
  function Matching(table: seq<Registration>, address: Bytes, matches: (Pattern, Bytes) -> bool)
    : (r: seq<Registration>)
    ensures |r| <= |table| && multiset(r) <= multiset(table)
    ensures forall e :: e in r <==> e in table && matches(e.pattern, address)
  {
    if table == [] then []
    else
      var rest := Matching(table[1..], address, matches);
      assert table == [table[0]] + table[1..];
      if matches(table[0].pattern, address) then [table[0]] + rest else rest
  }

  /** Selection keeps registration order: the matches among earlier entries
      come before those among later ones. */
  lemma {:induction false} MatchingKeepsOrder(front: seq<Registration>, back: seq<Registration>, address: Bytes,
                                              matches: (Pattern, Bytes) -> bool)
    ensures Matching(front + back, address, matches)
            == Matching(front, address, matches) + Matching(back, address, matches)
  {
    if front == [] {
      assert front + back == back;
    } else {
      assert (front + back)[0] == front[0] && (front + back)[1..] == front[1..] + back;
      MatchingKeepsOrder(front[1..], back, address, matches);
      ConcatAssociative([front[0]], Matching(front[1..], address, matches), Matching(back, address, matches));
    }
  }

  /** One call per entry, each with the same arguments. */
  function CallsTo(entries: seq<Registration>, args: seq<Arg>): (r: seq<Call>)
    ensures |r| == |entries|
    ensures forall i :: 0 <= i < |r| ==> r[i] == Call(entries[i].handler, args)
  {
    if entries == [] then [] else [Call(entries[0].handler, args)] + CallsTo(entries[1..], args)
  }

  /** `@patterns.each { |pat, block| block.call(*message.to_a) if pat === message.address }`
      for a Message: each matching handler in turn, until one raises. */
  function HandlersFor(table: seq<Registration>, m: Message, matches: (Pattern, Bytes) -> bool,
                       raises: Call -> bool): Run
  {
    if table == [] then Run([], true)
    else if matches(table[0].pattern, m.address) then
      var c := Call(table[0].handler, ToA(m));
      if raises(c) then Run([c], false)
      else Then(Run([c], true), HandlersFor(table[1..], m, matches, raises))
    else HandlersFor(table[1..], m, matches, raises)
  }

  /** `dispatch` of one decoded unit. A Bundle has no `address`: with at
      least one entry in the table the first `pat === message.address`
      raises NoMethodError before any handler runs; with none, nothing is
      evaluated. */
  function DispatchSpec(table: seq<Registration>, p: Packet, matches: (Pattern, Bytes) -> bool,
                        raises: Call -> bool): Run
  {
    match p
    case Msg(m) => HandlersFor(table, m, matches, raises)
    case Bnd(_) => Run([], table == [])
  }

  /** `elements.each { |m| dispatch m }`: each element in order, until one
      dispatch raises. Nested bundles are not flattened. */
  function DispatchEachSpec(table: seq<Registration>, ps: seq<Packet>, matches: (Pattern, Bytes) -> bool,
                            raises: Call -> bool): Run
  {
    if ps == [] then Run([], true)
    else Then(DispatchSpec(table, ps[0], matches, raises), DispatchEachSpec(table, ps[1..], matches, raises))
  }

  /** Calling `cs` in turn until one raises. */
  function RunCalls(cs: seq<Call>, raises: Call -> bool): Run
  {
    if cs == [] then Run([], true)
    else if raises(cs[0]) then Run([cs[0]], false)
    else
      var rest := RunCalls(cs[1..], raises);
      Run([cs[0]] + rest.calls, rest.completed)
  }

  /** The calls made are a prefix of `cs`: all of it when the pass
      completes, otherwise up to and including the first call that raises. */
  lemma {:induction false} RunCallsStopsAtFirstRaise(cs: seq<Call>, raises: Call -> bool)
    ensures var r := RunCalls(cs, raises);
            && r.calls <= cs
            && (r.completed ==> r.calls == cs)
            && (!r.completed ==> |r.calls| > 0 && raises(r.calls[|r.calls| - 1]))
            && forall i :: 0 <= i < |r.calls| - 1 ==> !raises(r.calls[i])
  {
    if cs != [] && !raises(cs[0]) {
      var rest := RunCalls(cs[1..], raises);
      RunCallsStopsAtFirstRaise(cs[1..], raises);
      var calls := [cs[0]] + rest.calls;
      assert cs == [cs[0]] + cs[1..];
      forall i | 0 <= i < |calls| - 1 ensures !raises(calls[i]) {
        if i > 0 { assert calls[i] == rest.calls[i - 1]; }
      }
      if !rest.completed {
        assert calls[|calls| - 1] == rest.calls[|rest.calls| - 1];
      }
    }
  }

  /** The pass completes exactly when no call in `cs` raises. */
  lemma {:induction false} RunCallsCompletes(cs: seq<Call>, raises: Call -> bool)
    ensures RunCalls(cs, raises).completed <==> forall i :: 0 <= i < |cs| ==> !raises(cs[i])
  {
    if cs != [] && !raises(cs[0]) {
      RunCallsCompletes(cs[1..], raises);
      assert (forall i :: 0 <= i < |cs| ==> !raises(cs[i]))
             <==> (forall i :: 0 <= i < |cs[1..]| ==> !raises(cs[1..][i])) by {
        forall i | 0 <= i < |cs[1..]| ensures cs[1..][i] == cs[i + 1] { }
      }
    }
  }

  /** `dispatch` of a Message calls every handler whose pattern matches the
      address, in registration order, each with the address followed by the
      arguments, until one raises. */
  lemma {:induction false} HandlersForCallsMatching(table: seq<Registration>, m: Message,
                                                    matches: (Pattern, Bytes) -> bool, raises: Call -> bool)
    ensures HandlersFor(table, m, matches, raises)
            == RunCalls(CallsTo(Matching(table, m.address, matches), ToA(m)), raises)
  {
    if table != [] {
      HandlersForCallsMatching(table[1..], m, matches, raises);
      if matches(table[0].pattern, m.address) {
        var c := Call(table[0].handler, ToA(m));
        var all := CallsTo(Matching(table, m.address, matches), ToA(m));
        assert all == [c] + CallsTo(Matching(table[1..], m.address, matches), ToA(m));
        assert all[1..] == CallsTo(Matching(table[1..], m.address, matches), ToA(m));
      }
    }
  }

  /** A nested Bundle is not flattened: with any pattern registered, it stops
      the pass over its enclosing bundle before anything from it is called. */
  lemma NestedBundleStopsDispatch(table: seq<Registration>, b: Bundle, rest: seq<Packet>,
                                  matches: (Pattern, Bytes) -> bool, raises: Call -> bool)
    requires table != []
    ensures DispatchEachSpec(table, [Bnd(b)] + rest, matches, raises) == Run([], false)
  {
    assert ([Bnd(b)] + rest)[0] == Bnd(b);
  }

  /** The NTP value of a timetag, the order `now >= bundle.timetag` uses. */
  function TimeValue(t: NtpTime): (v: int)
    ensures 0 <= v < WordRange * WordRange
  {
    t.seconds * WordRange + t.fraction
  }

  /** Bundles in the queue always carry a timetag: `receive` queues only those. */
  predicate Timed(q: seq<Bundle>)
  {
    forall i :: 0 <= i < |q| ==> q[i].timetag.Some?
  }

  /** `now >= bundle.timetag`. Only bundles with a timetag are ever queued,
      so the `nil` case, where the comparison would raise, never arises. */
  predicate Due(b: Bundle, now: int)
  {
    b.timetag.Some? && TimeValue(b.timetag.value) <= now
  }

  /** The queued bundles that are due at `now`, in queue order. */
  function DueAt(q: seq<Bundle>, now: int): (r: seq<Bundle>)
  {
    if q == [] then []
    else if Due(q[0], now) then [q[0]] + DueAt(q[1..], now)
    else DueAt(q[1..], now)
  }

  /** The queued bundles that are not yet due at `now`, in queue order. */
  function PendingAt(q: seq<Bundle>, now: int): (r: seq<Bundle>)
  {
    if q == [] then []
    else if Due(q[0], now) then PendingAt(q[1..], now)
    else [q[0]] + PendingAt(q[1..], now)
  }

  /** A bundle is released by a tick at `now` exactly when it is queued and
      due, and kept exactly when it is queued and not yet due. */
  lemma {:induction false} DuePendingMembers(q: seq<Bundle>, now: int)
    ensures forall b :: b in DueAt(q, now) <==> b in q && Due(b, now)
    ensures forall b :: b in PendingAt(q, now) <==> b in q && !Due(b, now)
  {
    if q != [] {
      DuePendingMembers(q[1..], now);
      assert q == [q[0]] + q[1..];
    }
  }

  /** Due and pending bundles split the queue: together they are its
      contents, each bundle counted as often as it is queued. */
  lemma {:induction false} DuePendingPartition(q: seq<Bundle>, now: int)
    ensures multiset(DueAt(q, now)) + multiset(PendingAt(q, now)) == multiset(q)
  {
    if q != [] {
      DuePendingPartition(q[1..], now);
      assert q == [q[0]] + q[1..];
    }
  }

  /** What releasing one bundle does: `bundle.elements.each { |m| dispatch m }`. */
  function BundleDispatch(table: seq<Registration>, matches: (Pattern, Bytes) -> bool,
                          raises: Call -> bool): Bundle -> Run
  {
    (b: Bundle) => DispatchEachSpec(table, b.elements, matches, raises)
  }

  /** Dispatching each bundle in turn, until one raises. */
  function DispatchBundles(bs: seq<Bundle>, dispatch: Bundle -> Run): Run
  {
    if bs == [] then Run([], true)
    else Then(dispatch(bs[0]), DispatchBundles(bs[1..], dispatch))
  }

  /** The queue after one tick and the handler calls the tick made. */
  datatype Step = Step(queue: seq<Bundle>, run: Run)

  /** The `delete_if` body of `check_queue` at time `now`, where releasing a
      bundle runs `dispatch` on it: a due bundle is dispatched and removed, a
      pending one stays. If a dispatch raises, `delete_if` stops there:
      bundles already released stay removed, the failing bundle and all
      after it stay queued. */
  function Release(q: seq<Bundle>, now: int, dispatch: Bundle -> Run): Step
  {
    if q == [] then Step([], Run([], true))
    else if !Due(q[0], now) then
      var r := Release(q[1..], now, dispatch);
      Step([q[0]] + r.queue, r.run)
    else
      var d := dispatch(q[0]);
      if !d.completed then Step(q, d)
      else
        var r := Release(q[1..], now, dispatch);
        Step(r.queue, Then(d, r.run))
  }

  /** A tick's handler calls are those of the due bundles, in queue order and
      then element order, up to the first dispatch that raises. */
  lemma {:induction false} ReleaseDispatchesDueInOrder(q: seq<Bundle>, now: int, dispatch: Bundle -> Run)
    ensures Release(q, now, dispatch).run == DispatchBundles(DueAt(q, now), dispatch)
  {
    if q != [] {
      ReleaseDispatchesDueInOrder(q[1..], now, dispatch);
    }
  }

  /** A tick that completes leaves exactly the bundles not yet due, in their
      original order. */
  lemma {:induction false} ReleaseKeepsPending(q: seq<Bundle>, now: int, dispatch: Bundle -> Run)
    requires Release(q, now, dispatch).run.completed
    ensures Release(q, now, dispatch).queue == PendingAt(q, now)
  {
    if q != [] {
      ReleaseKeepsPending(q[1..], now, dispatch);
    }
  }

  /** A tick keeps only bundles that were queued, so a queue of bundles
      with timetags stays one. */
  lemma {:induction false} ReleaseKeepsTimed(q: seq<Bundle>, now: int, dispatch: Bundle -> Run)
    requires Timed(q)
    ensures Timed(Release(q, now, dispatch).queue)
  {
    if q != [] {
      ReleaseKeepsTimed(q[1..], now, dispatch);
    }
  }

  /** Pending bundles of a prefix one longer than `k`, peeled at the front. */
  lemma PendingAtPrefix(q: seq<Bundle>, k: nat, now: int)
    requires k < |q|
    ensures PendingAt(q[..k + 1], now)
            == (if Due(q[0], now) then [] else [q[0]]) + PendingAt(q[1..][..k], now)
  {
    assert q[..k + 1][1..] == q[1..][..k];
  }

  /** A tick that stops on a raising dispatch leaves the pending bundles
      before the failing one, then the failing (due) bundle and everything
      after it, untouched. */
  lemma {:induction false} ReleaseStopKeepsRest(q: seq<Bundle>, now: int, dispatch: Bundle -> Run)
    returns (k: nat)
    requires !Release(q, now, dispatch).run.completed
    ensures k < |q| && Due(q[k], now) && !dispatch(q[k]).completed
    ensures Release(q, now, dispatch).queue == PendingAt(q[..k], now) + q[k..]
  {
    assert q != [];
    if Due(q[0], now) && !dispatch(q[0]).completed {
      k := 0;
      assert q[..0] == [] && q[0..] == q;
    } else {
      var head := if Due(q[0], now) then [] else [q[0]];
      assert Release(q, now, dispatch).queue == head + Release(q[1..], now, dispatch).queue;
      var j := ReleaseStopKeepsRest(q[1..], now, dispatch);
      PendingAtPrefix(q, j, now);
      assert q[1..][j..] == q[j + 1..] && q[1..][j] == q[j + 1];
      ConcatAssociative(head, PendingAt(q[1..][..j], now), q[j + 1..]);
      k := j + 1;
    }
  }

  /** `Array#delete(arg)` on the table: every entry `==` to `arg` is removed,
      the rest keep their order. An entry is a `[pattern, block]` pair, so it
      equals a pair argument with the same pattern and block and never a
      bare pattern. */
  function Without(table: seq<Registration>, arg: DeleteArg): (r: seq<Registration>)
    ensures |r| <= |table| && multiset(r) <= multiset(table)
    ensures forall e :: e in r <==> e in table && Pair(e) != arg
  {
    if table == [] then []
    else
      var rest := Without(table[1..], arg);
      assert table == [table[0]] + table[1..];
      if Pair(table[0]) == arg then rest else [table[0]] + rest
  }

  /** `delete_pattern` with a bare pattern removes nothing. */
  lemma {:induction false} DeleteBarePatternKeepsTable(table: seq<Registration>, p: Pattern)
    ensures Without(table, BarePattern(p)) == table
  {
    if table != [] {
      DeleteBarePatternKeepsTable(table[1..], p);
      assert table == [table[0]] + table[1..];
    }
  }

  /** `delete_pattern` with a whole pair removes every copy of it and keeps
      every other entry as many times as it was registered. */
  lemma {:induction false} DeletePairRemovesOnlyIt(table: seq<Registration>, e: Registration)
    ensures e !in Without(table, Pair(e))
    ensures forall x :: x != e ==> multiset(Without(table, Pair(e)))[x] == multiset(table)[x]
  {
    if table != [] {
      DeletePairRemovesOnlyIt(table[1..], e);
      assert table == [table[0]] + table[1..];
      var rest := Without(table[1..], Pair(e));
      if table[0] != e {
        assert Without(table, Pair(e)) == [table[0]] + rest;
      }
    }
  }
}
