/** The relay of kal-embed/src/relay.rs: the startup query's reply
    handler and the subscriber loop, both signalling the lenient decoding
    of a payload into the single-slot `RELAY_SIGNAL`, and the controller
    task publishing `KalVal::Relay`. */
module EmbedRelay {
  import opened Base
  import opened Togglable
  import Zenoh
  import EmbedKalval
  import Channels
  import opened Control

  /** What the task sends on `KAL_CHAN` for a level: a relay value that
      is never Toggle. */
  function Publication(l: Level): (v: EmbedKalval.KalVal)
    ensures v.Relay? && v.relay != Toggle
  {
    EmbedKalval.Relay(FromLevel(l))
  }

  /** The text published for a level is read back as that level by the
      lenient decoder. */
  lemma PublishedTextReadsBack(l: Level)
    ensures FromBytes(Ascii(EmbedKalval.AsString(Publication(l)).value)) == FromLevel(l)
  {
  }

  function Publications(ls: seq<Level>): (ps: seq<EmbedKalval.KalVal>)
    ensures |ps| == |ls|
    ensures forall i :: 0 <= i < |ls| ==> ps[i] == Publication(ls[i])
  {
    seq(|ls|, i requires 0 <= i < |ls| => Publication(ls[i]))
  }

  /** `relay_task`: the level, the relay pin with every level written to
      it, and every value sent on `KAL_CHAN` (a blocking send: none is
      dropped and their order is kept). */
  class RelayTask {
    var level: Level
    var pin: Level
    var writes: seq<Level>
    var published: seq<EmbedKalval.KalVal>
    const initialPin: Level

    /** Every publication is a relay value that is On or Off, never
        Toggle; the latest one is the current level; and once written the
        pin holds the current level. */
    ghost predicate Valid()
      reads this
    {
      && published != []
      && (forall i :: 0 <= i < |published| ==> published[i].Relay? && published[i].relay != Toggle)
      && published[|published| - 1] == Publication(level)
      && (if writes == [] then pin == initialPin else pin == writes[|writes| - 1] && pin == level)
    }

    /** Task start, given the relay `Output` at level `relay`: the level
        starts Low and is published once, before any event; the pin is not
        written. */
    constructor(relay: Level)
      ensures Valid()
      ensures level == Low && pin == relay && initialPin == relay
      ensures writes == [] && published == [Publication(Low)]
    {
      level := Low;
      pin := relay;
      initialPin := relay;
      writes := [];
      published := [Publication(Low)];
    }

    /** One loop iteration: a command sets the new level and writes it to
        the pin exactly once, even when it equals the old one; a timeout
        touches neither; either way the level is published once. */
    method Step(ev: Event<Togglable>)
      requires Valid()
      modifies this
      ensures Valid()
      ensures level == After(ApplyTogglable, old(level), ev)
      ensures writes == old(writes) + (if ev.Command? then [level] else [])
      ensures published == old(published) + [Publication(level)]
    {
      match ev {
        case Timeout =>
        case Command(t) =>
          level := ApplyTogglable(level, t);
          pin := level;
          writes := writes + [level];
      }
      published := published + [Publication(level)];
    }

    /** The iterations `evs`, as the loop runs them. */
    method Run(evs: seq<Event<Togglable>>)
      requires Valid()
      modifies this
      ensures Valid()
      ensures level == Final(ApplyTogglable, old(level), evs)
      ensures writes == old(writes) + Writes(ApplyTogglable, old(level), evs)
      ensures published == old(published) + Publications(Trace(ApplyTogglable, old(level), evs))
    {
      for i := 0 to |evs|
        invariant Valid()
        invariant level == Final(ApplyTogglable, old(level), evs[..i])
        invariant writes == old(writes) + Writes(ApplyTogglable, old(level), evs[..i])
        invariant published == old(published) + Publications(Trace(ApplyTogglable, old(level), evs[..i]))
      {
        Extend(ApplyTogglable, old(level), evs[..i], evs[i]);
        assert evs[..i + 1] == evs[..i] + [evs[i]];
        Step(evs[i]);
      }
      assert evs[..|evs|] == evs;
    }

    /** One iteration fed from the signal: `select` polls the signal
        first, so a pending value is taken and the slot emptied; only with
        nothing pending does the heartbeat timer win. */
    method ServeOnce(signal: Channels.SignalSlot<Togglable>)
      requires Valid()
      modifies this, signal
      ensures Valid() && signal.slot == None && signal.history == old(signal.history)
      ensures old(signal.slot).Some? ==>
                level == ApplyTogglable(old(level), old(signal.slot).value) && writes == old(writes) + [level]
      ensures old(signal.slot).None? ==> level == old(level) && writes == old(writes)
      ensures published == old(published) + [Publication(level)]
    {
      var next := signal.TryTake();
      match next
      case Some(t) => Step(Command(t));
      case None => Step(Timeout);
    }
  }

  /** `crate::error::Error`; `handle_reply` never returns one. */
  datatype Error = Error

  /** `handle_reply`, for the startup query: an Ok reply's payload is
      leniently decoded and signalled, overwriting any pending value; an
      error reply is only logged. Either way the result is Ok. */
  method HandleReply(reply: Zenoh.Reply, signal: Channels.SignalSlot<Togglable>) returns (r: Result<(), Error>)
    modifies signal
    ensures r == Ok(())
    ensures reply.ReplyOk? ==>
              signal.slot == Some(FromBytes(reply.payload))
              && signal.history == old(signal.history) + [FromBytes(reply.payload)]
    ensures reply.ReplyErr? ==> signal.slot == old(signal.slot) && signal.history == old(signal.history)
  {
    match reply {
      case ReplyErr(_) =>
      case ReplyOk(payload) =>
        signal.Signal(FromBytes(payload));
    }
    r := Ok(());
  }

  /** `relay_sub_task`, for the receive results `samples`: it signals the
      lenient decoding of every received payload, in order, and rejects
      none; only receive errors are dropped. As the slot is overwritten,
      it ends holding the last value signalled. */
  method RelaySubTask(samples: seq<Zenoh.Received>, signal: Channels.SignalSlot<Togglable>)
    returns (signalled: seq<Togglable>)
    modifies signal
    ensures signalled == DecodeAll(Zenoh.Payloads(samples))
    ensures signal.history == old(signal.history) + signalled
    ensures signal.slot == if signalled == [] then old(signal.slot) else Some(signalled[|signalled| - 1])
  {
    signalled := [];
    for i := 0 to |samples|
      invariant signalled == DecodeAll(Zenoh.Payloads(samples[..i]))
      invariant signal.history == old(signal.history) + signalled
      invariant signal.slot == if signalled == [] then old(signal.slot) else Some(signalled[|signalled| - 1])
    {
      assert samples[..i + 1] == samples[..i] + [samples[i]];
      Zenoh.PayloadsExtend(samples[..i], samples[i]);
      if samples[i].Sample? {
        var t := FromBytes(samples[i].payload);
        DecodeAllExtend(Zenoh.Payloads(samples[..i]), samples[i].payload);
        signal.Signal(t);
        signalled := signalled + [t];
      }
    }
    assert samples[..|samples|] == samples;
  }
}
