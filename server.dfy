/** `OSC::Server` without its socket and timer: the pattern table and the
    scheduling queue it updates in place, `receive`, the body of the
    `check_queue` timer and `dispatch`. Handler blocks are identified by
    `HandlerId`; what they do is outside the model except whether they raise
    (`raises`), and every call is recorded in the ghost `log`. */
module OscServer {
  import opened Bytes
  import opened OscValues
  import opened OscDecode
  import opened Dispatch

  /** What `receive` does with one datagram: the queue afterwards and the
      handler calls made. An incomplete run is an exception that `rescue`
      caught (a malformed datagram or a raising dispatch). */
  function ReceiveSpec(q: seq<Bundle>, table: seq<Registration>, data: Bytes,
                       matches: (Pattern, Bytes) -> bool, raises: Call -> bool): Step
  {
    match DecodePacket(data)
    case Err(_) => Step(q, Run([], false))
    case Ok(Msg(m)) => Step(q, DispatchSpec(table, Msg(m), matches, raises))
    case Ok(Bnd(b)) =>
      if b.timetag.None? then Step(q, DispatchEachSpec(table, b.elements, matches, raises))
      else Step(q + [b], Run([], true))
  }

  /** The rest of a pass resumed after `done` calls, with `kept` bundles
      already kept back. */
  function Resume(kept: seq<Bundle>, done: seq<Call>, r: Step): Step
  {
    Step(kept + r.queue, Then(Run(done, true), r.run))
  }

  /** One more entry of `@patterns.each` in `dispatch`. */
  lemma HandlersForStep(table: seq<Registration>, m: Message, i: nat, done: seq<Call>,
                        matches: (Pattern, Bytes) -> bool, raises: Call -> bool)
    requires i < |table|
    ensures var c := Call(table[i].handler, ToA(m));
            var r := Then(Run(done, true), HandlersFor(table[i..], m, matches, raises));
            var next := HandlersFor(table[i + 1..], m, matches, raises);
            && (!matches(table[i].pattern, m.address) ==> r == Then(Run(done, true), next))
            && (matches(table[i].pattern, m.address) && !raises(c) ==> r == Then(Run(done + [c], true), next))
            && (matches(table[i].pattern, m.address) && raises(c) ==> r == Run(done + [c], false))
  {
    assert table[i..][1..] == table[i + 1..];
    assert table[i..][0] == table[i];
  }

  /** One more element of `elements.each { |m| dispatch m }`. */
  lemma DispatchEachStep(table: seq<Registration>, ps: seq<Packet>, j: nat, done: seq<Call>,
                         matches: (Pattern, Bytes) -> bool, raises: Call -> bool)
    requires j < |ps|
    ensures var d := DispatchSpec(table, ps[j], matches, raises);
            var r := Then(Run(done, true), DispatchEachSpec(table, ps[j..], matches, raises));
            if d.completed
            then r == Then(Run(done + d.calls, true), DispatchEachSpec(table, ps[j + 1..], matches, raises))
            else r == Run(done + d.calls, false)
  {
    assert ps[j..][1..] == ps[j + 1..];
    ThenAssociative(Run(done, true), DispatchSpec(table, ps[j], matches, raises),
                    DispatchEachSpec(table, ps[j + 1..], matches, raises));
  }

  /** A bundle not yet due stays queued and the pass moves on. */
  lemma ReleasePendingStep(rest: seq<Bundle>, kept: seq<Bundle>, done: seq<Call>, now: int,
                           dispatch: Bundle -> Run)
    requires rest != [] && !Due(rest[0], now)
    ensures Resume(kept, done, Release(rest, now, dispatch))
            == Resume(kept + [rest[0]], done, Release(rest[1..], now, dispatch))
  {
  }

  /** A due bundle whose dispatch completes is removed and the pass moves on. */
  lemma ReleaseDueStep(rest: seq<Bundle>, kept: seq<Bundle>, done: seq<Call>, now: int,
                       dispatch: Bundle -> Run)
    requires rest != [] && Due(rest[0], now) && dispatch(rest[0]).completed
    ensures Resume(kept, done, Release(rest, now, dispatch))
            == Resume(kept, done + dispatch(rest[0]).calls, Release(rest[1..], now, dispatch))
  {
    ThenAssociative(Run(done, true), dispatch(rest[0]), Release(rest[1..], now, dispatch).run);
  }

  /** A due bundle whose dispatch raises ends the pass with it and everything
      after it still queued. */
  lemma ReleaseStopStep(rest: seq<Bundle>, kept: seq<Bundle>, done: seq<Call>, now: int,
                        dispatch: Bundle -> Run)
    requires rest != [] && Due(rest[0], now) && !dispatch(rest[0]).completed
    ensures Resume(kept, done, Release(rest, now, dispatch))
            == Step(kept + rest, Run(done + dispatch(rest[0]).calls, false))
  {
  }

  class Server {
    /** `@queue`: bundles waiting for their timetag. */
    var queue: seq<Bundle>
    /** `@patterns`: the `[pattern, block]` entries in registration order. */
    var patterns: seq<Registration>
    /** Every handler call made so far, in order. */
    ghost var log: seq<Call>
    /** `pattern === address` */
    const matches: (Pattern, Bytes) -> bool
    /** Whether a handler raises when called with these arguments. */
    const raises: Call -> bool

    ghost predicate Valid()
      reads this
    {
      Timed(queue)
    }

    /** `Server.new`: an empty queue and an empty table. */
    constructor (matches: (Pattern, Bytes) -> bool, raises: Call -> bool)
      ensures Valid()
      ensures queue == [] && patterns == [] && log == []
      ensures this.matches == matches && this.raises == raises
    {
      queue, patterns, log := [], [], [];
      this.matches, this.raises := matches, raises;
    }

    /** `add_pattern`: appends one entry; without a block it raises
      ArgumentError and leaves the table alone. */
    method AddPattern(pattern: Pattern, block: Option<HandlerId>) returns (r: Result<()>)
      modifies this`patterns
      ensures block.None? ==> r == Err(ArgumentError) && patterns == old(patterns)
      ensures block.Some? ==> r.Ok? && patterns == old(patterns) + [Registration(pattern, block.value)]
    {
      if block.None? {
        return Err(ArgumentError);
      }
      patterns := patterns + [Registration(pattern, block.value)];
      return Ok(());
    }

    /** `delete_pattern`: `@patterns.delete(arg)`. */
    method DeletePattern(arg: DeleteArg)
      modifies this`patterns
      ensures patterns == Without(old(patterns), arg)
      ensures arg.BarePattern? ==> patterns == old(patterns)
    {
      if arg.BarePattern? {
        DeleteBarePatternKeepsTable(patterns, arg.pattern);
      }
      patterns := Without(patterns, arg);
    }

    /** `dispatch`: the handlers of every matching entry, in table order. */
    method Dispatch(p: Packet) returns (completed: bool)
      modifies this`log
      ensures var run := DispatchSpec(patterns, p, matches, raises);
              log == old(log) + run.calls && completed == run.completed
    {
      if p.Bnd? {
        // `message.address` on a Bundle raises as soon as the table is non-empty
        return patterns == [];
      }
      var m := p.message;
      var args := ToA(m);
      ghost var done: seq<Call> := [];
      var i := 0;
      while i < |patterns|
        invariant 0 <= i <= |patterns|
        invariant log == old(log) + done
        invariant HandlersFor(patterns, m, matches, raises)
                  == Then(Run(done, true), HandlersFor(patterns[i..], m, matches, raises))
      {
        HandlersForStep(patterns, m, i, done, matches, raises);
        var entry := patterns[i];
        if matches(entry.pattern, m.address) {
          var c := Call(entry.handler, args);
          ConcatAssociative(old(log), done, [c]);
          log := log + [c];
          done := done + [c];
          if raises(c) {
            return false;
          }
        }
        i := i + 1;
      }
      return true;
    }

    /** `elements.each { |m| dispatch m }`: stops at the first dispatch that
      raises. */
    method DispatchEach(ps: seq<Packet>) returns (completed: bool)
      modifies this`log
      ensures var run := DispatchEachSpec(patterns, ps, matches, raises);
              log == old(log) + run.calls && completed == run.completed
    {
      ghost var table := patterns;
      ghost var done: seq<Call> := [];
      var j := 0;
      while j < |ps|
        invariant 0 <= j <= |ps|
        invariant log == old(log) + done
        invariant DispatchEachSpec(table, ps, matches, raises)
                  == Then(Run(done, true), DispatchEachSpec(table, ps[j..], matches, raises))
      {
        DispatchEachStep(table, ps, j, done, matches, raises);
        var ok := Dispatch(ps[j]);
        ConcatAssociative(old(log), done, DispatchSpec(table, ps[j], matches, raises).calls);
        done := done + DispatchSpec(table, ps[j], matches, raises).calls;
        if !ok {
          return false;
        }
        j := j + 1;
      }
      return true;
    }

    /** `receive`: decode the datagram; dispatch a Message; dispatch the
      elements of a bundle with a nil timetag; queue any other bundle. An
      exception anywhere is rescued (`rescued`), dropping the rest of the
      datagram; calls already made stay made. */
    method Receive(data: Bytes) returns (rescued: bool)
      requires Valid()
      modifies this`queue, this`log
      ensures Valid()
      ensures var s := ReceiveSpec(old(queue), patterns, data, matches, raises);
              queue == s.queue && log == old(log) + s.run.calls && rescued == !s.run.completed
    {
      var decoded := DecodePacket(data);
      match decoded
      case Err(_) =>
        rescued := true;
      case Ok(Msg(m)) =>
        var ok := Dispatch(Msg(m));
        rescued := !ok;
      case Ok(Bnd(b)) =>
        if b.timetag.None? {
          var ok := DispatchEach(b.elements);
          rescued := !ok;
        } else {
          queue := queue + [b];
          rescued := false;
        }
    }

    /** One firing of the `check_queue` timer at time `now`: `@queue.delete_if`
      releases and dispatches every due bundle, in queue order. */
    method Tick(now: int)
      requires Valid()
      modifies this`queue, this`log
      ensures Valid()
      ensures var s := Release(old(queue), now, BundleDispatch(patterns, matches, raises));
              queue == s.queue && log == old(log) + s.run.calls
    {
      var rest := queue;
      ghost var dispatch := BundleDispatch(patterns, matches, raises);
      ReleaseKeepsTimed(rest, now, dispatch);
      var kept: seq<Bundle> := [];
      ghost var done: seq<Call> := [];
      while rest != []
        invariant log == old(log) + done
        invariant Release(old(queue), now, dispatch) == Resume(kept, done, Release(rest, now, dispatch))
        decreases |rest|
      {
        var b := rest[0];
        if Due(b, now) {
          assert dispatch(b) == DispatchEachSpec(patterns, b.elements, matches, raises);
          var ok := DispatchEach(b.elements);
          ConcatAssociative(old(log), done, dispatch(b).calls);
          if !ok {
            ReleaseStopStep(rest, kept, done, now, dispatch);
            done := done + dispatch(b).calls;
            assert Release(old(queue), now, dispatch).queue == kept + rest;
            queue := kept + rest;
            return;
          }
          ReleaseDueStep(rest, kept, done, now, dispatch);
          done := done + dispatch(b).calls;
        } else {
          ReleasePendingStep(rest, kept, done, now, dispatch);
          kept := kept + [b];
        }
        rest := rest[1..];
      }
      assert kept + [] == kept;
      assert Release(old(queue), now, dispatch).queue == kept;
      queue := kept;
    }
  }
}
