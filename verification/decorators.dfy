/** The two logging decorators every analysis stage wears: one times the
    call, the other announces its start and its completion. The clock and
    the log are an explicit world threaded through each call. */
module Decorators {
  import opened Results

  /** One log line, with the function name it reports. */
  datatype Event =
    | Starting(name: string)              // the call is about to run
    | Timed(name: string, elapsed: int)   // the call took `elapsed` clock ticks
    | Completed(name: string)             // the call returned

  /** The clock and the log lines written so far. */
  datatype World = World(clock: int, log: seq<Event>)

  /** What a call returned (or raised) and the world it left behind. */
  datatype Outcome<B> = Outcome(result: Result<B>, world: World)

  /** A Python callable: its `__name__` and its behaviour. */
  datatype Callable<!A, B> = Callable(name: string, call: (A, World) -> Outcome<B>)

  /** A plain function as a callable: it spends `cost` ticks of the clock
      and writes nothing to the log. */
  function Lift<A, B>(name: string, body: A -> Result<B>, cost: nat): Callable<A, B> {
    Callable(name, (a: A, w: World) => Outcome(body(a), World(w.clock + cost, w.log)))
  }

  /** The `__name__` Python gives a function written `def wrapper`. */
  const WrapperName: string := "wrapper"

  /** `medirTiempo`, producing a callable named `outer`: read the clock, run
      the function, read the clock again, log the difference under the
      function's name, and return the function's result. An exception
      passes through before anything is logged. */
  function Timing<A(!new), B>(f: Callable<A, B>, outer: string): (r: Callable<A, B>)
    ensures r.name == outer
    ensures forall a: A, w: World :: r.call(a, w).result == f.call(a, w).result
    ensures forall a: A, w: World :: r.call(a, w).world.clock == f.call(a, w).world.clock
  {
    Callable(outer, (a: A, w: World) =>
      var o := f.call(a, w);
      if o.result.Err? then o
      else Outcome(o.result, World(o.world.clock, o.world.log + [Timed(f.name, o.world.clock - w.clock)])))
  }

  /** `registrarEjecucion`, producing a callable named `outer`: log the
      start under the function's name, run it, log its completion, and
      return its result. An exception passes through after the start line. */
  function Logging<A(!new), B>(f: Callable<A, B>, outer: string): (r: Callable<A, B>)
    ensures r.name == outer
    ensures forall a: A, w: World :: r.call(a, w).result == f.call(a, World(w.clock, w.log + [Starting(f.name)])).result
  {
    Callable(outer, (a: A, w: World) =>
      var o := f.call(a, World(w.clock, w.log + [Starting(f.name)]));
      if o.result.Err? then o
      else Outcome(o.result, World(o.world.clock, o.world.log + [Completed(f.name)])))
  }

  /** The decorators as written: the returned callable is the inner
      `wrapper`, so it answers to that name, while the timing line still
      names the function itself. */
  function TimeAsWritten<A(!new), B>(f: Callable<A, B>): (r: Callable<A, B>)
    ensures r.name == WrapperName
    ensures forall a: A, w: World :: r.call(a, w).result == f.call(a, w).result
    ensures forall a: A, w: World :: f.call(a, w).result.Ok? ==>
      r.call(a, w).world.log == f.call(a, w).world.log + [Timed(f.name, f.call(a, w).world.clock - w.clock)]
  {
    Timing(f, WrapperName)
  }

  function LogAsWritten<A(!new), B>(f: Callable<A, B>): (r: Callable<A, B>)
    ensures r.name == WrapperName
    ensures forall a: A, w: World :: r.call(a, w).result == f.call(a, World(w.clock, w.log + [Starting(f.name)])).result
    ensures forall a: A, w: World :: f.call(a, World(w.clock, w.log + [Starting(f.name)])).result.Ok? ==>
      r.call(a, w).world.log == f.call(a, World(w.clock, w.log + [Starting(f.name)])).world.log + [Completed(f.name)]
  {
    Logging(f, WrapperName)
  }

  /** The decorators as evidently intended (with `functools.wraps`): the
      returned callable keeps the decorated function's name. */
  function Time<A(!new), B>(f: Callable<A, B>): (r: Callable<A, B>)
    ensures r.name == f.name
    ensures forall a: A, w: World :: r.call(a, w).result == f.call(a, w).result
    ensures forall a: A, w: World :: r.call(a, w).world.clock == f.call(a, w).world.clock
    ensures forall a: A, w: World :: f.call(a, w).result.Err? ==> r.call(a, w).world == f.call(a, w).world
  {
    Timing(f, f.name)
  }

  function Log<A(!new), B>(f: Callable<A, B>): (r: Callable<A, B>)
    ensures r.name == f.name
    ensures forall a: A, w: World :: r.call(a, w).result == f.call(a, World(w.clock, w.log + [Starting(f.name)])).result
    ensures forall a: A, w: World :: r.call(a, w).world.clock == f.call(a, World(w.clock, w.log + [Starting(f.name)])).world.clock
  {
    Logging(f, f.name)
  }

  /** `@registrarEjecucion` over `@medirTiempo`, the stack every analysis
      stage carries. */
  function DecorateAsWritten<A(!new), B>(f: Callable<A, B>): (r: Callable<A, B>)
    ensures r.name == WrapperName
    ensures forall a: A, w: World ::
      r.call(a, w).result == f.call(a, World(w.clock, w.log + [Starting(WrapperName)])).result
  {
    LogAsWritten(TimeAsWritten(f))
  }

  function Decorate<A(!new), B>(f: Callable<A, B>): (r: Callable<A, B>)
    ensures r.name == f.name
    ensures forall a: A, w: World ::
      r.call(a, w).result == f.call(a, World(w.clock, w.log + [Starting(f.name)])).result
    ensures forall a: A, w: World ::
      r.call(a, w).world.clock == f.call(a, World(w.clock, w.log + [Starting(f.name)])).world.clock
  {
    Log(Time(f))
  }

  /** The timer is transparent: same result, same clock; on success it adds
      exactly one line, naming the function and the ticks the call took,
      and on failure it adds nothing. */
  lemma TimingTransparent<A(!new), B>(f: Callable<A, B>, outer: string, a: A, w: World)
    ensures Timing(f, outer).call(a, w).result == f.call(a, w).result
    ensures Timing(f, outer).call(a, w).world.clock == f.call(a, w).world.clock
    ensures f.call(a, w).result.Err? ==> Timing(f, outer).call(a, w).world == f.call(a, w).world
    ensures f.call(a, w).result.Ok? ==>
      Timing(f, outer).call(a, w).world.log
        == f.call(a, w).world.log + [Timed(f.name, f.call(a, w).world.clock - w.clock)]
  {
  }

  /** A function that never turns the clock back is never logged with a
      negative duration. */
  lemma ElapsedNonNegative<A(!new), B>(f: Callable<A, B>, outer: string, a: A, w: World)
    requires f.call(a, w).world.clock >= w.clock
    requires f.call(a, w).result.Ok?
    ensures Timing(f, outer).call(a, w).world.log[|Timing(f, outer).call(a, w).world.log| - 1].elapsed >= 0
  {
  }

  /** The start/finish logger is transparent: the function sees the world
      with the start line added, its result is returned unchanged, and the
      completion line follows only a successful call. */
  lemma LoggingTransparent<A(!new), B>(f: Callable<A, B>, outer: string, a: A, w: World)
    ensures var inner := f.call(a, World(w.clock, w.log + [Starting(f.name)]));
      && Logging(f, outer).call(a, w).result == inner.result
      && Logging(f, outer).call(a, w).world.clock == inner.world.clock
      && (inner.result.Err? ==> Logging(f, outer).call(a, w).world.log == inner.world.log)
      && (inner.result.Ok? ==> Logging(f, outer).call(a, w).world.log == inner.world.log + [Completed(f.name)])
  {
  }

  /** The corrected stack around a plain function: its result, its cost on
      the clock, and the three lines naming it (only the first when it
      raises). */
  lemma DecoratedRun<A(!new), B>(name: string, body: A -> Result<B>, cost: nat, a: A, w: World)
    ensures Decorate(Lift(name, body, cost)).call(a, w).result == body(a)
    ensures Decorate(Lift(name, body, cost)).call(a, w).world.clock == w.clock + cost
    ensures body(a).Ok? ==>
      Decorate(Lift(name, body, cost)).call(a, w).world.log
        == w.log + [Starting(name), Timed(name, cost), Completed(name)]
    ensures body(a).Err? ==>
      Decorate(Lift(name, body, cost)).call(a, w).world.log == w.log + [Starting(name)]
  {
    var f := Lift(name, body, cost);
    var w1 := World(w.clock, w.log + [Starting(name)]);
    TimingTransparent(f, name, a, w1);
    LoggingTransparent(Time(f), name, a, w);
    assert w.log + [Starting(name)] + [Timed(name, cost)] + [Completed(name)]
        == w.log + [Starting(name), Timed(name, cost), Completed(name)];
  }

  /** The stack as written: the start and completion lines name the inner
      `wrapper` instead of the decorated function; only the timing line
      carries the real name. A call that raises leaves just the `wrapper`
      start line. */
  lemma AsWrittenLogsWrapper<A(!new), B>(name: string, body: A -> Result<B>, cost: nat, a: A, w: World)
    ensures body(a).Ok? ==>
      DecorateAsWritten(Lift(name, body, cost)).call(a, w).world.log
        == w.log + [Starting(WrapperName), Timed(name, cost), Completed(WrapperName)]
    ensures body(a).Err? ==>
      DecorateAsWritten(Lift(name, body, cost)).call(a, w).world.log == w.log + [Starting(WrapperName)]
    ensures name != WrapperName ==>
      DecorateAsWritten(Lift(name, body, cost)).call(a, w).world.log
        != Decorate(Lift(name, body, cost)).call(a, w).world.log
  {
    var f := Lift(name, body, cost);
    var w1 := World(w.clock, w.log + [Starting(WrapperName)]);
    TimingTransparent(f, WrapperName, a, w1);
    LoggingTransparent(TimeAsWritten(f), WrapperName, a, w);
    assert w.log + [Starting(WrapperName)] + [Timed(name, cost)] + [Completed(WrapperName)]
        == w.log + [Starting(WrapperName), Timed(name, cost), Completed(WrapperName)];
    if name != WrapperName {
      DecoratedRun(name, body, cost, a, w);
      var asWritten := DecorateAsWritten(f).call(a, w).world.log;
      assert asWritten[|w.log|] == Starting(WrapperName);
      assert Decorate(f).call(a, w).world.log[|w.log|] == Starting(name);
    }
  }
}
