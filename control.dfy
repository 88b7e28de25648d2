/** The loop shared by the controller tasks (`relay_task` in src/relay.rs
    and in kal-embed/src/relay.rs, `led_task` in kal-embed/src/led.rs).
    Each iteration `select`s between the next command and the
    five-minute heartbeat timer, computes the new level from a command
    (leaving it alone on a timeout), writes the pin on a command only,
    and publishes the level once. The functions below give, for a
    finite run of iterations, the level reached, the levels published
    and the pin writes made; the tasks' classes are proved against them. */
module Control {
  import opened Base
  import opened Togglable

  /** What one `select` yields: a command, or the heartbeat timer's expiry. */
  datatype Event<C> = Command(cmd: C) | Timeout

  /** The level after one iteration that started at `level`. */
  function After<C>(apply: (Level, C) -> Level, level: Level, ev: Event<C>): Level {
    match ev
    case Command(c) => apply(level, c)
    case Timeout => level
  }

  /** The level after the iterations `evs`, starting from `level`. */
  function Final<C>(apply: (Level, C) -> Level, level: Level, evs: seq<Event<C>>): Level
    decreases |evs|
  {
    if evs == [] then level
    else After(apply, Final(apply, level, evs[..|evs| - 1]), evs[|evs| - 1])
  }

  /** The levels published by the iterations `evs`, one per iteration. */
  function Trace<C>(apply: (Level, C) -> Level, level: Level, evs: seq<Event<C>>): seq<Level>
    decreases |evs|
  {
    if evs == [] then []
    else Trace(apply, level, evs[..|evs| - 1]) + [Final(apply, level, evs)]
  }

  /** The levels written to the pin by the iterations `evs`: one per command. */
  function Writes<C>(apply: (Level, C) -> Level, level: Level, evs: seq<Event<C>>): seq<Level>
    decreases |evs|
  {
    if evs == [] then []
    else
      Writes(apply, level, evs[..|evs| - 1])
      + (if evs[|evs| - 1].Command? then [Final(apply, level, evs)] else [])
  }

  /** The number of commands among `evs`. */
  function CommandCount<C>(evs: seq<Event<C>>): nat {
    if evs == [] then 0
    else CommandCount(evs[..|evs| - 1]) + (if evs[|evs| - 1].Command? then 1 else 0)
  }

  // ---------------------------------------------------------------------
  // Properties of the loop, for any command semantics `apply`.

  /** One more iteration extends the run: the shape of the loop's step. */
  lemma Extend<C>(apply: (Level, C) -> Level, level: Level, evs: seq<Event<C>>, ev: Event<C>)
    ensures Final(apply, level, evs + [ev]) == After(apply, Final(apply, level, evs), ev)
    ensures Trace(apply, level, evs + [ev]) == Trace(apply, level, evs) + [Final(apply, level, evs + [ev])]
    ensures Writes(apply, level, evs + [ev])
         == Writes(apply, level, evs) + (if ev.Command? then [Final(apply, level, evs + [ev])] else [])
  {
    assert (evs + [ev])[..|evs|] == evs;
  }

  /** Every iteration publishes exactly once, and the i-th publication is
      the level reached after the first i + 1 iterations. */
  lemma {:induction false} TracePublishesEachLevel<C>(apply: (Level, C) -> Level, level: Level, evs: seq<Event<C>>)
    ensures |Trace(apply, level, evs)| == |evs|
    ensures forall i :: 0 <= i < |evs| ==> Trace(apply, level, evs)[i] == Final(apply, level, evs[..i + 1])
  {
    if evs != [] {
      var init := evs[..|evs| - 1];
      TracePublishesEachLevel(apply, level, init);
      forall i | 0 <= i < |evs|
        ensures Trace(apply, level, evs)[i] == Final(apply, level, evs[..i + 1])
      {
        if i < |init| {
          assert init[..i + 1] == evs[..i + 1];
        } else {
          assert evs[..i + 1] == evs;
        }
      }
    }
  }

  /** The pin is written exactly once per command. */
  lemma {:induction false} OneWritePerCommand<C>(apply: (Level, C) -> Level, level: Level, evs: seq<Event<C>>)
    ensures |Writes(apply, level, evs)| == CommandCount(evs)
  {
    if evs != [] {
      OneWritePerCommand(apply, level, evs[..|evs| - 1]);
    }
  }

  /** After at least one command the pin holds the current level: the
      last write is the level the run ends at. */
  lemma {:induction false} LastWriteIsFinal<C>(apply: (Level, C) -> Level, level: Level, evs: seq<Event<C>>)
    requires Writes(apply, level, evs) != []
    ensures Writes(apply, level, evs)[|Writes(apply, level, evs)| - 1] == Final(apply, level, evs)
  {
    var init := evs[..|evs| - 1];
    if evs[|evs| - 1].Timeout? {
      LastWriteIsFinal(apply, level, init);
    }
  }

  /** Heartbeats change nothing: a run of timeouts keeps the level,
      writes nothing, and republishes the same level every time. */
  lemma {:induction false} TimeoutsKeepLevel<C>(apply: (Level, C) -> Level, level: Level, evs: seq<Event<C>>)
    requires forall i :: 0 <= i < |evs| ==> evs[i].Timeout?
    ensures Final(apply, level, evs) == level
    ensures Writes(apply, level, evs) == []
    ensures forall i :: 0 <= i < |Trace(apply, level, evs)| ==> Trace(apply, level, evs)[i] == level
  {
    if evs != [] {
      TimeoutsKeepLevel(apply, level, evs[..|evs| - 1]);
    }
  }

  /** Running `xs` and then `ys` ends where running `ys` from the end of `xs` does. */
  lemma {:induction false} FinalConcat<C>(apply: (Level, C) -> Level, level: Level, xs: seq<Event<C>>, ys: seq<Event<C>>)
    ensures Final(apply, level, xs + ys) == Final(apply, Final(apply, level, xs), ys)
    decreases |ys|
  {
    if ys == [] {
      assert xs + ys == xs;
    } else {
      var init := ys[..|ys| - 1];
      FinalConcat(apply, level, xs, init);
      assert (xs + ys)[..|xs + ys| - 1] == xs + init;
    }
  }

  // ---------------------------------------------------------------------
  // The command semantics of the kal-embed tasks, whose inbox carries a Togglable.

  /** `On => High, Off => Low, Toggle => !level`. Read back as a
      Togglable, the new level is the command itself unless the command
      is Toggle, which flips the level. */
  function ApplyTogglable(level: Level, t: Togglable): (l: Level)
    ensures t != Toggle ==> FromLevel(l) == t
    ensures t == Toggle ==> l != level
  {
    match t
    case On => High
    case Off => Low
    case Toggle => level.Not()
  }

  /** Two Toggle commands in a row bring level and pin back to where they
      were, after writing the flipped level and then the original one. */
  lemma ToggleTwiceRestores(level: Level, evs: seq<Event<Togglable>>)
    ensures var twice := evs + [Command(Toggle), Command(Toggle)];
            && Final(ApplyTogglable, level, twice) == Final(ApplyTogglable, level, evs)
            && Writes(ApplyTogglable, level, twice)
               == Writes(ApplyTogglable, level, evs)
                  + [Final(ApplyTogglable, level, evs).Not(), Final(ApplyTogglable, level, evs)]
  {
    var once := evs + [Command(Toggle)];
    Extend(ApplyTogglable, level, evs, Command(Toggle));
    Extend(ApplyTogglable, level, once, Command(Toggle));
    assert once + [Command(Toggle)] == evs + [Command(Toggle), Command(Toggle)];
  }

  /** Once an On or Off command has been handled, the level no longer
      depends on the level the task started from. */
  lemma {:induction false} AbsoluteCommandForgetsStart(l1: Level, l2: Level, evs: seq<Event<Togglable>>, k: nat)
    requires k < |evs| && evs[k].Command? && evs[k].cmd != Toggle
    ensures Final(ApplyTogglable, l1, evs) == Final(ApplyTogglable, l2, evs)
  {
    var init := evs[..|evs| - 1];
    if k < |init| {
      AbsoluteCommandForgetsStart(l1, l2, init, k);
    }
  }
}
