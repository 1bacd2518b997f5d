/** The output of the network codec's decoder: a complete message, or a
    marker that the message is still being downloaded. The message type is
    a parameter, since its definition is not part of this model. */
module DecoderOutputs {
  import opened Wrappers

  datatype DecoderOutput<M> = Complete(message: M) | Incomplete

  /** `From<Message>`: a message is a complete output. */
  function FromMessage<M>(m: M): (d: DecoderOutput<M>)
    ensures d.Complete? && d.message == m
  {
    Complete(m)
  }

  /** `into_complete_message`: the message of a complete output, and
      nothing for an incomplete one. */
  function IntoCompleteMessage<M>(d: DecoderOutput<M>): (r: Option<M>)
    ensures r.Some? <==> d.Complete?
    ensures r.Some? ==> r.value == d.message
  {
    match d
    case Complete(m) => Some(m)
    case Incomplete => None
  }

  /** Converting a message into an output and back gives the message. */
  lemma RoundTrip<M>(m: M)
    ensures IntoCompleteMessage(FromMessage(m)) == Some(m)
  {
    var d := FromMessage(m);
    assert d == Complete(m);
  }

  /** The output is recovered from its message: the two conversions are
      inverse on complete outputs, and an output yields a message exactly
      when it came from one. */
  lemma Inverse<M>(d: DecoderOutput<M>)
    ensures IntoCompleteMessage(d).Some? ==> FromMessage(IntoCompleteMessage(d).value) == d
    ensures IntoCompleteMessage(d) == None <==> d == Incomplete
  {
    if d.Complete? {
      assert IntoCompleteMessage(d) == Some(d.message);
    }
  }
}
