/**
 * The ErrorHandler of src/error_handler/error_handler.cpp: a list of
 * reported errors that only grows until it is cleared, and a `foundError`
 * flag that is set by the first `add` and never reset, not even by `clear`.
 *
 * The handler remembers (as ghost state) the calls made on it, and its two
 * fields are always what `ListAfter` and `FlagAfter` say of that history.
 */
module Errors {
  import opened Seqs

  /** ErrorInfo: the line, the "where" text and the message of one error. */
  datatype ErrorInfo = ErrorInfo(line: int, where: string, message: string)

  /** A call that changes a handler. */
  datatype Call = AddCall(info: ErrorInfo) | ClearCall

  /** The errors the `add` calls among `calls` carry, in order. */
  function AddedIn(calls: seq<Call>): (r: seq<ErrorInfo>)
    ensures |r| <= |calls|
    ensures forall e :: e in r ==> AddCall(e) in calls
    decreases |calls|
  {
    if calls == [] then []
    else
      var last := calls[|calls| - 1];
      AddedIn(calls[..|calls| - 1]) + (if last.AddCall? then [last.info] else [])
  }

  /** Whether any of `calls` is an `add`. */
  function FlagAfter(calls: seq<Call>): (r: bool)
    ensures r <==> exists i :: 0 <= i < |calls| && calls[i].AddCall?
    decreases |calls|
  {
    if calls == [] then false
    else
      var prefix := calls[..|calls| - 1];
      assert forall i :: 0 <= i < |prefix| ==> prefix[i] == calls[i];
      FlagAfter(prefix) || calls[|calls| - 1].AddCall?
  }

  /**
   * The list after `calls` made on a fresh handler: every `add` appends,
   * every `clear` empties. Listed errors imply the flag is up.
   */
  function ListAfter(calls: seq<Call>): (r: seq<ErrorInfo>)
    ensures |r| > 0 ==> FlagAfter(calls)
    ensures ClearCall !in calls ==> r == AddedIn(calls)
    decreases |calls|
  {
    if calls == [] then []
    else
      var prefix := calls[..|calls| - 1];
      assert forall c :: c in prefix ==> c in calls;
      match calls[|calls| - 1]
      case AddCall(info) => ListAfter(prefix) + [info]
      case ClearCall => []
  }

  /** After the last `clear`, the list holds exactly the errors added since, in order. */
  lemma {:induction false} ClearForgets(before: seq<Call>, after: seq<Call>)
    requires ClearCall !in after
    ensures ListAfter(before + [ClearCall] + after) == AddedIn(after)
    decreases |after|
  {
    if after == [] {
      assert before + [ClearCall] + after == before + [ClearCall];
      ListAfterOneMore(before, ClearCall);
    } else {
      var prefix, last := after[..|after| - 1], after[|after| - 1];
      assert after == prefix + [last];
      assert ClearCall !in prefix && last.AddCall? by {
        assert forall c :: c in prefix ==> c in after;
      }
      ClearForgets(before, prefix);
      AppendAssoc(before + [ClearCall], prefix, [last]);
      ListAfterOneMore(before + [ClearCall] + prefix, last);
      AddedInOneMore(prefix, last);
    }
  }

  /** One more call after `calls`: the list is cleared or grows by one. */
  lemma ListAfterOneMore(calls: seq<Call>, c: Call)
    ensures ListAfter(calls + [c]) == if c.AddCall? then ListAfter(calls) + [c.info] else []
  {
    assert (calls + [c])[..|calls|] == calls;
  }

  /** One more call after `calls`: an `add` contributes its error. */
  lemma AddedInOneMore(calls: seq<Call>, c: Call)
    ensures AddedIn(calls + [c]) == AddedIn(calls) + if c.AddCall? then [c.info] else []
  {
    assert (calls + [c])[..|calls|] == calls;
  }

  class ErrorHandler {
    var errorList: seq<ErrorInfo>
    var foundError: bool
    ghost var calls: seq<Call>

    ghost predicate Valid()
      reads this
    {
      errorList == ListAfter(calls) && foundError == FlagAfter(calls)
    }

    /** A fresh handler: no errors, flag down. */
    constructor ()
      ensures Valid() && calls == []
      ensures errorList == [] && !foundError
    {
      errorList := [];
      foundError := false;
      calls := [];
    }

    /** add: one more error at the end of the list, and the flag goes up. */
    method Add(line: int, where: string, message: string)
      requires Valid()
      modifies this
      ensures Valid() && calls == old(calls) + [AddCall(ErrorInfo(line, where, message))]
      ensures errorList == old(errorList) + [ErrorInfo(line, where, message)]
      ensures foundError
    {
      errorList := errorList + [ErrorInfo(line, where, message)];
      foundError := true;
      calls := calls + [AddCall(ErrorInfo(line, where, message))];
      assert calls[..|calls| - 1] == old(calls);
    }

    /** clear: the list is emptied; `foundError` keeps its value. */
    method Clear()
      requires Valid()
      modifies this
      ensures Valid() && calls == old(calls) + [ClearCall]
      ensures errorList == [] && foundError == old(foundError)
    {
      errorList := [];
      calls := calls + [ClearCall];
      assert calls[..|calls| - 1] == old(calls);
    }
  }
}
