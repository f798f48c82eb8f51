/** Exceptions as trees, and the Messages() extension that flattens one. */
module ExceptionExtensions {
  import opened Common

  /** A System.Exception. An AggregateException carries its InnerExceptions
      list (its InnerException is the first of them, so it is not kept apart);
      every other exception carries at most one InnerException. */
  datatype Exception =
    | Exception(message: string, stackTrace: Option<string>, innerException: Option<Exception>)
    | AggregateException(message: string, stackTrace: Option<string>, innerExceptions: seq<Exception>)

  /** The entry an exception contributes about itself: its Message, followed
      by the platform's new-line string and its StackTrace when it has one. */
  function OwnMessage(e: Exception, newLine: string): (m: string)
    ensures e.stackTrace.None? ==> m == e.message
    ensures e.stackTrace.Some? ==> m == e.message + newLine + e.stackTrace.value
  {
    match e.stackTrace
    case None => e.message
    case Some(trace) => e.message + newLine + trace
  }

  /** The exceptions Messages() recurses into, in order. */
  function Children(e: Exception): seq<Exception>
  {
    match e
    case AggregateException(_, _, inner) => inner
    case Exception(_, _, inner) => if inner.Some? then [inner.value] else []
  }

  /** Number of exceptions in the tree rooted at e. */
  function Size(e: Exception): nat
  {
    match e
    case AggregateException(_, _, inner) => 1 + SizeAll(inner)
    case Exception(_, _, inner) => 1 + if inner.Some? then Size(inner.value) else 0
  }

  function SizeAll(es: seq<Exception>): nat
  {
    if es == [] then 0 else Size(es[0]) + SizeAll(es[1..])
  }

  /** Messages(ex); None is a null exception. */
  function Messages(ex: Option<Exception>, newLine: string): (r: seq<string>)
    ensures ex.None? ==> r == []
    ensures ex.Some? ==> |r| >= 1 && r[0] == OwnMessage(ex.value, newLine)
  {
    match ex
    case None => []
    case Some(e) => MessagesOf(e, newLine)
  }

  /** The messages of a non-null exception: its own first, then those of the
      exceptions below it. */
  function MessagesOf(e: Exception, newLine: string): (r: seq<string>)
    ensures |r| >= 1 && r[0] == OwnMessage(e, newLine)
  {
    match e
    case AggregateException(_, _, inner) => [OwnMessage(e, newLine)] + MessagesOfAll(inner, newLine)
    case Exception(_, _, inner) =>
      [OwnMessage(e, newLine)] + if inner.Some? then MessagesOf(inner.value, newLine) else []
  }

  /** SelectMany(innerEx => innerEx.Messages()) over a list of exceptions. */
  function MessagesOfAll(es: seq<Exception>, newLine: string): seq<string>
  {
    if es == [] then [] else MessagesOf(es[0], newLine) + MessagesOfAll(es[1..], newLine)
  }

  // ---------------------------------------------------------------------------
  // Properties
  // ---------------------------------------------------------------------------

  lemma {:induction false} SizeAllAppend(a: seq<Exception>, b: seq<Exception>)
    ensures SizeAll(a + b) == SizeAll(a) + SizeAll(b)
  {
    if a == [] {
      assert a + b == b;
    } else {
      assert (a + b)[1..] == a[1..] + b;
      SizeAllAppend(a[1..], b);
    }
  }

  lemma {:induction false} SizeChildren(e: Exception)
    ensures Size(e) == 1 + SizeAll(Children(e))
  {
    match e
    case AggregateException(_, _, _) =>
    case Exception(_, _, inner) =>
      if inner.Some? {
        assert [inner.value][1..] == [];
      }
  }

  /** Messages of a node: its own, then those of its children, in order. */
  lemma {:induction false} MessagesOfChildren(e: Exception, newLine: string)
    ensures MessagesOf(e, newLine) == [OwnMessage(e, newLine)] + MessagesOfAll(Children(e), newLine)
  {
    match e
    case AggregateException(_, _, _) =>
    case Exception(_, _, inner) =>
      if inner.Some? {
        assert [inner.value][1..] == [];
      }
  }

  lemma {:induction false} MessagesOfAllAppend(a: seq<Exception>, b: seq<Exception>, newLine: string)
    ensures MessagesOfAll(a + b, newLine) == MessagesOfAll(a, newLine) + MessagesOfAll(b, newLine)
  {
    if a == [] {
      assert a + b == b;
    } else {
      assert (a + b)[1..] == a[1..] + b;
      MessagesOfAllAppend(a[1..], b, newLine);
    }
  }

  /** One message per exception in the tree: a non-null exception always
      yields at least one message. */
  lemma {:induction false} MessagesCount(e: Exception, newLine: string)
    ensures |MessagesOf(e, newLine)| == Size(e)
  {
    match e
    case AggregateException(_, _, inner) => MessagesAllCount(inner, newLine);
    case Exception(_, _, inner) =>
      if inner.Some? {
        MessagesCount(inner.value, newLine);
      }
  }

  lemma {:induction false} MessagesAllCount(es: seq<Exception>, newLine: string)
    ensures |MessagesOfAll(es, newLine)| == SizeAll(es)
  {
    if es != [] {
      MessagesCount(es[0], newLine);
      MessagesAllCount(es[1..], newLine);
    }
  }

  /** Pre-order traversal with an explicit work list: take the first
      exception, emit its own message, put its children in front of the rest. */
  function PreOrder(work: seq<Exception>, newLine: string): seq<string>
    decreases SizeAll(work)
  {
    if work == [] then []
    else
      SizeAllAppend(Children(work[0]), work[1..]);
      SizeChildren(work[0]);
      [OwnMessage(work[0], newLine)] + PreOrder(Children(work[0]) + work[1..], newLine)
  }

  lemma {:induction false} PreOrderSplit(es: seq<Exception>, rest: seq<Exception>, newLine: string)
    ensures PreOrder(es + rest, newLine) == MessagesOfAll(es, newLine) + PreOrder(rest, newLine)
    decreases SizeAll(es)
  {
    if es == [] {
      assert es + rest == rest;
    } else {
      var e := es[0];
      var work := es + rest;
      assert work[0] == e && work[1..] == es[1..] + rest;
      var kids := Children(e);
      assert kids + work[1..] == (kids + es[1..]) + rest;
      SizeAllAppend(kids, es[1..]);
      SizeChildren(e);
      PreOrderSplit(kids + es[1..], rest, newLine);
      MessagesOfAllAppend(kids, es[1..], newLine);
      MessagesOfChildren(e, newLine);
    }
  }

  /** Messages() is the pre-order flattening of the exception tree. */
  lemma MessagesIsPreOrder(e: Exception, newLine: string)
    ensures Messages(Some(e), newLine) == PreOrder([e], newLine)
  {
    PreOrderSplit([e], [], newLine);
    assert [e] + [] == [e];
    assert [e][1..] == [];
  }
}
