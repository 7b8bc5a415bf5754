/** The program's single exception type: a reason taken from a fixed table
    and a `what()` text built from the reason's name and an optional message.
    The parsers of this model return it as the error half of `Result`. */
module Exceptions {

  /** The enumerators, in declaration order. */
  datatype Reason = LOGIC_ERROR | INVALID_INPUT_FORMAT

  /** The enumerator's value in the C++ enum. */
  function Ordinal(r: Reason): nat {
    match r
    case LOGIC_ERROR => 0
    case INVALID_INPUT_FORMAT => 1
  }

  /** The `reasonName` table: the enumerator spellings, indexed by ordinal. */
  const ReasonNames: seq<string> := ["LOGIC_ERROR", "INVALID_INPUT_FORMAT"]

  function ReasonName(r: Reason): (name: string)
    ensures |name| > 0
  {
    ReasonNames[Ordinal(r)]
  }

  datatype SeddEcException = SeddEcException(reason: Reason, what: string)

  /** The constructor that takes only a reason. */
  function FromReason(reason: Reason): (e: SeddEcException)
    ensures e.reason == reason
    ensures ReasonOf(e.what) == Some(reason) && MessageOf(e.what) == None
    ensures |e.what| == |ReasonName(reason)|
  {
    ReasonNameAlone(reason);
    SeddEcException(reason, ReasonName(reason))
  }

  /** The constructor that takes a reason and a message. */
  function WithMessage(reason: Reason, message: string): (e: SeddEcException)
    ensures e.reason == reason
    ensures ReasonOf(e.what) == Some(reason) && MessageOf(e.what) == Some(message)
  {
    ReasonNameBeforeMessage(reason, message);
    SeddEcException(reason, ReasonName(reason) + ": " + message)
  }

  datatype Option<T> = None | Some(value: T)

  datatype Result<T> = Ok(value: T) | Err(error: SeddEcException) {
    predicate IsFailure() { Err? }
    function PropagateFailure<U>(): Result<U> requires Err? { Err(error) }
    function Extract(): T requires Ok? { value }
  }

  predicate IsPrefix(p: string, s: string) {
    |p| <= |s| && s[..|p|] == p
  }

  /** Reading a `what()` text back: the reason whose name it starts with. */
  function ReasonOf(what: string): Option<Reason> {
    if IsPrefix(ReasonName(LOGIC_ERROR), what) then Some(LOGIC_ERROR)
    else if IsPrefix(ReasonName(INVALID_INPUT_FORMAT), what) then Some(INVALID_INPUT_FORMAT)
    else None
  }

  /** Reading a `what()` text back: the message after the reason name, if any. */
  function MessageOf(what: string): Option<string> {
    match ReasonOf(what)
    case None => None
    case Some(r) =>
      var n := |ReasonName(r)|;
      if IsPrefix(ReasonName(r) + ": ", what) then Some(what[n + 2..]) else None
  }

  /** No reason name is a prefix of another one, so `what()` determines the reason. */
  lemma NamesPrefixFree(a: Reason, b: Reason)
    ensures IsPrefix(ReasonName(a), ReasonName(b)) <==> a == b
  {
    if a != b {
      assert ReasonName(a)[1] != ReasonName(b)[1];
    }
  }

  lemma ReasonNameAlone(r: Reason)
    ensures ReasonOf(ReasonName(r)) == Some(r) && MessageOf(ReasonName(r)) == None
  {
    NamesPrefixFree(LOGIC_ERROR, r);
    NamesPrefixFree(INVALID_INPUT_FORMAT, r);
  }

  lemma ReasonNameBeforeMessage(r: Reason, message: string)
    ensures ReasonOf(ReasonName(r) + ": " + message) == Some(r)
    ensures MessageOf(ReasonName(r) + ": " + message) == Some(message)
  {
    var w := ReasonName(r) + ": " + message;
    var n := ReasonName(r);
    assert w[..|n|] == n;
    forall o: Reason | o != r
      ensures !IsPrefix(ReasonName(o), w)
    {
      assert ReasonName(o)[1] != w[1];
    }
    assert w[..|n| + 2] == n + ": ";
    assert w[|n| + 2..] == message;
  }

  /** `what()` always begins with the name of the stored reason. */
  lemma {:induction false} WhatStartsWithReasonName(reason: Reason, message: string)
    ensures IsPrefix(ReasonName(reason), FromReason(reason).what)
    ensures IsPrefix(ReasonName(reason), WithMessage(reason, message).what)
  {
    var w := WithMessage(reason, message).what;
    assert w[..|ReasonName(reason)|] == ReasonName(reason);
  }
}
