/** Channel messages and pages, ordered by canonical decimal sequence. */
module Channels {
  import opened Strings
  import opened Decimal
  import opened Options

  datatype Message = Message(seqno: Str, from: Str, body: Str, postedAt: nat)

  datatype Coverage = Complete | Gap | Empty

  datatype Page = Page(epoch: Str, channel: Str, retainedFrom: Str, retainedTo: Str, coverage: Coverage,
                       caughtUp: bool, messages: seq<Message>)

  const NONE: Str := [ZERO]

  /** Every sequence canonical and numerically after all the ones before it. */
  predicate Ordered(messages: seq<Message>) {
    && (forall i :: 0 <= i < |messages| ==> Canonical(messages[i].seqno))
    && (forall i, j :: 0 <= i < j < |messages| ==> Num(messages[i].seqno) < Num(messages[j].seqno))
  }

  /** `messagesOrdered` compares decimal strings only; it decides the numeric order of canonical sequences. */
  method MessagesOrdered(messages: seq<Message>) returns (ok: bool)
    ensures ok == Ordered(messages)
  {
    hide Num, CompareSequence;
    var index := 1;
    while index < |messages|
      invariant 1 <= index
      invariant index <= |messages| || |messages| == 0
      invariant |messages| > 1 ==> forall i :: 0 <= i < index && index > 1 ==> Canonical(messages[i].seqno)
      invariant forall i, j :: 0 <= i < j < index <= |messages| ==> Num(messages[i].seqno) < Num(messages[j].seqno)
    {
      CompareIsNumeric(messages[index - 1].seqno, messages[index].seqno);
      if CompareSequence(messages[index - 1].seqno, messages[index].seqno) != Before {
        return false;
      }
      index := index + 1;
    }
    ok := forall i :: 0 <= i < |messages| ==> Canonical(messages[i].seqno);
  }
}
