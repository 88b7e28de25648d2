/** The pieces of the zenoh transport the command path sees: a reply to
    the startup query and the results of a subscriber's `recv()`. The
    transport itself is not part of this model. */
module Zenoh {
  import opened Base

  /** A query reply. Both arms carry a sample; the handlers read its
      payload, and its key expression only reaches the log. */
  datatype Reply = ReplyOk(payload: seq<uint8>) | ReplyErr(payload: seq<uint8>)

  /** One result of `subscriber.recv()`: a sample, or a receive error. */
  datatype Received = Sample(payload: seq<uint8>) | RecvError

  /** The payloads of the samples received without error, in arrival
      order: a subscriber loop logs and skips a receive error. */
  function Payloads(rs: seq<Received>): (ps: seq<seq<uint8>>)
    ensures |ps| <= |rs|
  {
    if rs == [] then []
    else
      var last := rs[|rs| - 1];
      Payloads(rs[..|rs| - 1]) + (if last.Sample? then [last.payload] else [])
  }

  /** One more receive result passes on its payload if it is a sample. */
  lemma PayloadsExtend(rs: seq<Received>, r: Received)
    ensures Payloads(rs + [r]) == Payloads(rs) + (if r.Sample? then [r.payload] else [])
  {
    assert (rs + [r])[..|rs|] == rs;
  }

  /** With no receive error, every sample's payload is passed on, in order. */
  lemma {:induction false} PayloadsWithoutErrors(rs: seq<Received>)
    requires forall i :: 0 <= i < |rs| ==> rs[i].Sample?
    ensures |Payloads(rs)| == |rs|
    ensures forall i :: 0 <= i < |rs| ==> Payloads(rs)[i] == rs[i].payload
  {
    if rs != [] {
      PayloadsWithoutErrors(rs[..|rs| - 1]);
    }
  }
}
