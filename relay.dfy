/** The relay of src/relay.rs: the strict command decoder, the startup
    query's reply handler feeding the five-slot command inbox
    (`RELAY_CMND`), the controller task, and the subscriber loop that
    forwards decoded commands. */
module Relay {
  import opened Base
  import Togglable
  import Zenoh
  import Kalval
  import Channels
  import opened Control

  /** The capacity of the `RELAY_CMND` inbox. */
  const InboxCapacity: nat := 5

  datatype RelayCmnd = On | Off | Toggle

  datatype RelayCmndError = InvalidPayload(payload: seq<uint8>)

  /** The only payload each command is accepted as: the ASCII bytes of
      the word named in the comment (see `TokenText`). */
  function Token(c: RelayCmnd): (b: seq<uint8>)
    ensures 2 <= |b| <= 6
  {
    match c
    case On => [79, 78]  // ON
    case Off => [79, 70, 70]  // OFF
    case Toggle => [84, 79, 71, 71, 76, 69]  // TOGGLE
  }

  /** The tokens are the texts `ON`, `OFF` and `TOGGLE`, and no two
      commands share one. */
  lemma TokenText()
    ensures Token(On) == Ascii("ON") && Token(Off) == Ascii("OFF") && Token(Toggle) == Ascii("TOGGLE")
    ensures forall c1: RelayCmnd, c2: RelayCmnd :: Token(c1) == Token(c2) ==> c1 == c2
  {
    assert Token(On)[1] != Token(Off)[1];
  }

  /** `TryFrom<&[u8]>`: the strict decoder. It accepts a payload exactly
      when it is some command's token, and returns that command; any
      other payload comes back unchanged inside `InvalidPayload`. */
  function TryFrom(p: seq<uint8>): (r: Result<RelayCmnd, RelayCmndError>)
    ensures r.Ok? ==> p == Token(r.value)
    ensures r.Err? ==> r.error == InvalidPayload(p)
    ensures r.Err? ==> forall c :: p != Token(c)
  {
    if p == Token(On) then Ok(On)
    else if p == Token(Off) then Ok(Off)
    else if p == Token(Toggle) then Ok(Toggle)
    else Err(InvalidPayload(p))
  }

  /** Each command's token decodes to that command. */
  lemma TokenRoundTrip(c: RelayCmnd)
    ensures TryFrom(Token(c)) == Ok(c)
  {
    TokenText();
  }

  /** Spellings the lenient decoder takes are refused here: `on`,
      `Toggle`, and the relay's own telemetry text `true`/`false`. */
  lemma StrictRefusals(b: bool)
    ensures TryFrom(Ascii("on")) == Err(InvalidPayload(Ascii("on")))
    ensures TryFrom(Ascii("Toggle")) == Err(InvalidPayload(Ascii("Toggle")))
    ensures var text := Kalval.AsString(Kalval.Relay(Some(b))).value;
            TryFrom(Ascii(text)).Err? && Togglable.FromBytes(Ascii(text)) != Togglable.Toggle
  {
    TokenText();
    assert Ascii("on")[0] != Ascii("ON")[0];
    assert Ascii("Toggle")[1] != Ascii("TOGGLE")[1];
  }

  /** The strict decoder refuses every `as_str` text, so a kal-embed
      telemetry text is never a root-crate command. */
  lemma StrictRefusesAsStr(t: Togglable.Togglable)
    ensures TryFrom(Ascii(Togglable.AsStr(t))).Err?
  {
    assert Ascii(Togglable.AsStr(t))[0] == Togglable.AsStr(t)[0] as int as uint8;
  }

  // ---------------------------------------------------------------------
  // The controller task.

  /** `On => High, Off => Low, Toggle => !level`: On drives the relay
      high, Off drives it low, Toggle flips it. */
  function ApplyCmnd(level: Level, c: RelayCmnd): (l: Level)
    ensures c == On ==> l.ToBool()
    ensures c == Off ==> !l.ToBool()
    ensures c == Toggle ==> l != level
  {
    match c
    case On => High
    case Off => Low
    case Toggle => level.Not()
  }

  /** Where both crates understand a payload, their controllers agree:
      a payload the strict decoder accepts moves the level exactly as the
      lenient decoder's reading of it moves a kal-embed controller. */
  lemma StrictAndLenientAgree(level: Level, p: seq<uint8>)
    requires TryFrom(p).Ok?
    ensures ApplyCmnd(level, TryFrom(p).value) == ApplyTogglable(level, Togglable.FromBytes(p))
  {
    TokenText();
    Togglable.OnSpellings();
    Togglable.OffSpellings();
    Togglable.OtherPayloadsToggle();
  }

  /** What the task sends on `KAL_CHAN` for a level: a present relay
      value that converts to the same Togglable as the level does. */
  function Publication(l: Level): (v: Kalval.KalVal)
    ensures v.Relay? && v.relay.Some?
    ensures Togglable.FromOption(v.relay) == Togglable.FromLevel(l)
  {
    Kalval.Relay(Some(l.ToBool()))
  }

  /** The text published for a level is read back as that level by the
      lenient decoder, and refused by the strict one. */
  lemma PublishedTextReadsBack(l: Level)
    ensures Togglable.FromBytes(Ascii(Kalval.AsString(Publication(l)).value)) == Togglable.FromLevel(l)
    ensures TryFrom(Ascii(Kalval.AsString(Publication(l)).value)).Err?
  {
    StrictRefusals(l.ToBool());
  }

  function Publications(ls: seq<Level>): (ps: seq<Kalval.KalVal>)
    ensures |ps| == |ls|
    ensures forall i :: 0 <= i < |ls| ==> ps[i] == Publication(ls[i])
  {
    seq(|ls|, i requires 0 <= i < |ls| => Publication(ls[i]))
  }

  /** `relay_task`: the level, the relay pin with every level written to
      it, and every value sent on `KAL_CHAN` (a blocking send: none is
      dropped and their order is kept). */
  class RelayTask {
    var level: Level
    var pin: Level
    var writes: seq<Level>
    var published: seq<Kalval.KalVal>
    const initialPin: Level

    /** Every publication is a present relay value, the latest one is the
        current level, and once written the pin holds the current level. */
    ghost predicate Valid()
      reads this
    {
      && published != []
      && (forall i :: 0 <= i < |published| ==> published[i].Relay? && published[i].relay.Some?)
      && published[|published| - 1] == Publication(level)
      && (if writes == [] then pin == initialPin else pin == writes[|writes| - 1] && pin == level)
    }

    /** Task start, given the relay `Output` at level `relay`: the level
        starts Low and is published once, before any event; the pin is not
        written. */
    constructor(relay: Level)
      ensures Valid()
      ensures level == Low && pin == relay && initialPin == relay
      ensures writes == [] && published == [Publication(Low)]
    {
      level := Low;
      pin := relay;
      initialPin := relay;
      writes := [];
      published := [Publication(Low)];
    }

    /** One loop iteration: a command sets the new level and writes it to
        the pin, even when it equals the old one; a timeout changes
        nothing; either way the level is published once. */
    method Step(ev: Event<RelayCmnd>)
      requires Valid()
      modifies this
      ensures Valid()
      ensures level == After(ApplyCmnd, old(level), ev)
      ensures writes == old(writes) + (if ev.Command? then [level] else [])
      ensures published == old(published) + [Publication(level)]
    {
      match ev {
        case Timeout =>
        case Command(c) =>
          level := ApplyCmnd(level, c);
          pin := level;
          writes := writes + [level];
      }
      published := published + [Publication(level)];
    }

    /** The iterations `evs`, as the loop runs them. */
    method Run(evs: seq<Event<RelayCmnd>>)
      requires Valid()
      modifies this
      ensures Valid()
      ensures level == Final(ApplyCmnd, old(level), evs)
      ensures writes == old(writes) + Writes(ApplyCmnd, old(level), evs)
      ensures published == old(published) + Publications(Trace(ApplyCmnd, old(level), evs))
    {
      for i := 0 to |evs|
        invariant Valid()
        invariant level == Final(ApplyCmnd, old(level), evs[..i])
        invariant writes == old(writes) + Writes(ApplyCmnd, old(level), evs[..i])
        invariant published == old(published) + Publications(Trace(ApplyCmnd, old(level), evs[..i]))
      {
        Extend(ApplyCmnd, old(level), evs[..i], evs[i]);
        assert evs[..i + 1] == evs[..i] + [evs[i]];
        Step(evs[i]);
      }
      assert evs[..|evs|] == evs;
    }

    /** One iteration fed from the inbox: `select` polls the inbox first,
        so a queued command is taken (the oldest); only with an empty
        inbox does the heartbeat timer win. */
    method ServeOnce(inbox: Channels.Fifo<RelayCmnd>)
      requires Valid() && inbox.Valid()
      modifies this, inbox
      ensures Valid() && inbox.Valid()
      ensures old(inbox.items) != [] ==>
                && inbox.items == old(inbox.items)[1..]
                && level == ApplyCmnd(old(level), old(inbox.items)[0])
                && writes == old(writes) + [level]
      ensures old(inbox.items) == [] ==> inbox.items == [] && level == old(level) && writes == old(writes)
      ensures published == old(published) + [Publication(level)]
    {
      var next := inbox.TryReceive();
      match next
      case Some(c) => Step(Command(c));
      case None => Step(Timeout);
    }
  }

  // ---------------------------------------------------------------------
  // The inbox's producers.

  /** The error `handle_reply` reports: an undecodable payload, or a full
      inbox refusing the decoded command. */
  datatype Error = Decode(cause: RelayCmndError) | Full(cmd: RelayCmnd)

  /** `handle_reply`, for the startup query. An error reply is only
      logged. An Ok reply's payload is strictly decoded, and an
      undecodable one is reported before anything is queued. A decoded
      command is offered with `try_send`, which never waits: a full inbox
      refuses it and the refusal is reported. */
  method HandleReply(reply: Zenoh.Reply, inbox: Channels.Fifo<RelayCmnd>) returns (r: Result<(), Error>)
    requires inbox.Valid() && inbox.capacity == InboxCapacity
    modifies inbox
    ensures inbox.Valid()
    ensures reply.ReplyErr? ==> r == Ok(()) && inbox.items == old(inbox.items)
    ensures reply.ReplyOk? && TryFrom(reply.payload).Err? ==>
              r == Err(Decode(InvalidPayload(reply.payload))) && inbox.items == old(inbox.items)
    ensures reply.ReplyOk? && TryFrom(reply.payload).Ok? ==>
              var c := TryFrom(reply.payload).value;
              if |old(inbox.items)| < InboxCapacity
              then r == Ok(()) && inbox.items == old(inbox.items) + [c]
              else r == Err(Full(c)) && inbox.items == old(inbox.items)
  {
    match reply
    case ReplyErr(_) =>
      r := Ok(());
    case ReplyOk(payload) =>
      var decoded := TryFrom(payload);
      match decoded
      case Err(e) =>
        r := Err(Decode(e));
      case Ok(c) =>
        var sent := inbox.TrySend(c);
        r := if sent.Ok? then Ok(()) else Err(Full(c));
  }

  /** The commands forwarded for the payloads `ps`, in order: those the
      strict decoder accepts. */
  function Forwarded(ps: seq<seq<uint8>>): seq<RelayCmnd> {
    if ps == [] then []
    else
      var decoded := TryFrom(ps[|ps| - 1]);
      Forwarded(ps[..|ps| - 1]) + (if decoded.Ok? then [decoded.value] else [])
  }

  /** Only accepted payloads are forwarded: there are no more commands
      than payloads, and every forwarded command's token was received. */
  lemma {:induction false} ForwardedOnlyAccepted(ps: seq<seq<uint8>>)
    ensures |Forwarded(ps)| <= |ps|
    ensures forall i :: 0 <= i < |Forwarded(ps)| ==> Token(Forwarded(ps)[i]) in ps
  {
    if ps != [] {
      var init := ps[..|ps| - 1];
      var decoded := TryFrom(ps[|ps| - 1]);
      ForwardedOnlyAccepted(init);
      assert ps == init + [ps[|ps| - 1]];
      assert Forwarded(ps) == Forwarded(init) + (if decoded.Ok? then [decoded.value] else []);
      forall i | 0 <= i < |Forwarded(ps)|
        ensures Token(Forwarded(ps)[i]) in ps
      {
        if i < |Forwarded(init)| {
          assert Forwarded(ps)[i] == Forwarded(init)[i];
        }
      }
    }
  }

  /** When no payload is accepted, nothing is forwarded. */
  lemma {:induction false} ForwardedNoneAccepted(ps: seq<seq<uint8>>)
    requires forall i :: 0 <= i < |ps| ==> TryFrom(ps[i]).Err?
    ensures Forwarded(ps) == []
  {
    if ps != [] {
      var init := ps[..|ps| - 1];
      assert forall i :: 0 <= i < |init| ==> init[i] == ps[i];
      ForwardedNoneAccepted(init);
    }
  }

  /** When every payload is accepted, the i-th command forwarded is the
      decoding of the i-th payload. */
  lemma {:induction false} ForwardedAllAccepted(ps: seq<seq<uint8>>)
    requires forall i :: 0 <= i < |ps| ==> TryFrom(ps[i]).Ok?
    ensures |Forwarded(ps)| == |ps|
    ensures forall i :: 0 <= i < |ps| ==> Forwarded(ps)[i] == TryFrom(ps[i]).value
  {
    if ps != [] {
      var init := ps[..|ps| - 1];
      ForwardedAllAccepted(init);
      var last := TryFrom(ps[|ps| - 1]);
      assert Forwarded(ps) == Forwarded(init) + [last.value];
      forall i | 0 <= i < |ps|
        ensures Forwarded(ps)[i] == TryFrom(ps[i]).value
      {
        if i < |init| {
          assert init[i] == ps[i];
        }
      }
    }
  }

  /** Forwarding keeps arrival order: the commands for `xs` then `ys` are
      those for `xs` followed by those for `ys`. */
  lemma {:induction false} ForwardedKeepsOrder(xs: seq<seq<uint8>>, ys: seq<seq<uint8>>)
    ensures Forwarded(xs + ys) == Forwarded(xs) + Forwarded(ys)
    decreases |ys|
  {
    if ys == [] {
      assert xs + ys == xs;
    } else {
      var init := ys[..|ys| - 1];
      ForwardedKeepsOrder(xs, init);
      assert (xs + ys)[..|xs + ys| - 1] == xs + init;
    }
  }

  /** `relay_cmnd_sub_task`: the commands it sends into the inbox, for the
      receive results `samples`. Receive errors and undecodable samples
      are logged and dropped; every decoded command is sent with the
      blocking `send`, so none is lost and their order is kept. */
  method RelayCmndSubTask(samples: seq<Zenoh.Received>) returns (sent: seq<RelayCmnd>)
    ensures sent == Forwarded(Zenoh.Payloads(samples))
  {
    sent := [];
    for i := 0 to |samples|
      invariant sent == Forwarded(Zenoh.Payloads(samples[..i]))
    {
      assert samples[..i + 1][..i] == samples[..i];
      match samples[i]
      case RecvError =>
        assert Zenoh.Payloads(samples[..i + 1]) == Zenoh.Payloads(samples[..i]);
      case Sample(p) =>
        assert Zenoh.Payloads(samples[..i + 1]) == Zenoh.Payloads(samples[..i]) + [p];
        match TryFrom(p)
        case Ok(c) => sent := sent + [c];
        case Err(_) =>
    }
    assert samples[..|samples|] == samples;
  }
}
