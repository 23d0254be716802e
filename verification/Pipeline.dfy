/** The counters of one device as the fold of its port events. */
module Pipeline {
  import opened Framing

  datatype ErrorClass = Disconnected | Absent | PermissionDenied | ReadOnly | Busy | PortFailure | Unknown

  datatype PortEvent =
    | PortOpened
    | PortClosed
    | PortLost(lost: ErrorClass)
    | PortOpenFailed(failed: ErrorClass)
    | BytesDiscarded(reason: DiscardReason, discarded: nat)
    | BytesRead(bytes: nat)

  // The same things, said of a trace.

  /** The port is open when, of the events that open or close it, the last one
      opened it. */
  ghost predicate OpenAfter(trace: seq<PortEvent>) {
    exists i :: 0 <= i < |trace| && trace[i].PortOpened? && forall j :: i < j < |trace| ==> !ChangesPort(trace[j])
  }

  predicate ChangesPort(event: PortEvent) { !event.BytesDiscarded? && !event.BytesRead? }

  function ReadBytes(trace: seq<PortEvent>): nat {
    if trace == [] then 0
    else ReadBytes(trace[..|trace| - 1]) + (if trace[|trace| - 1].BytesRead? then trace[|trace| - 1].bytes else 0)
  }

  function Discarded(trace: seq<PortEvent>): multiset<DiscardReason> {
    if trace == [] then multiset{}
    else
      var last := trace[|trace| - 1];
      Discarded(trace[..|trace| - 1]) + (if last.BytesDiscarded? then multiset{last.reason} else multiset{})
  }

  function FailedOpens(trace: seq<PortEvent>): multiset<ErrorClass> {
    if trace == [] then multiset{}
    else
      var last := trace[|trace| - 1];
      FailedOpens(trace[..|trace| - 1]) + (if last.PortOpenFailed? then multiset{last.failed} else multiset{})
  }

  /** One more of a kind counted. */
  function OneMore<T>(counts: multiset<T>, one: T): multiset<T> { counts + multiset{one} }

  /** The class of the last loss or failed open, Unknown before the first. */
  function LastFailure(trace: seq<PortEvent>): ErrorClass {
    if trace == [] then Unknown
    else
      match trace[|trace| - 1]
      case PortLost(class_) => class_
      case PortOpenFailed(class_) => class_
      case _ => LastFailure(trace[..|trace| - 1])
  }

  lemma OpenOneMore(trace: seq<PortEvent>, event: PortEvent)
    ensures OpenAfter(trace + [event]) <==> event.PortOpened? || (!ChangesPort(event) && OpenAfter(trace))
  {
    var more := trace + [event];
    if event.PortOpened? {
      assert more[|trace|].PortOpened?;
    } else if !ChangesPort(event) && OpenAfter(trace) {
      var i :| 0 <= i < |trace| && trace[i].PortOpened? && forall j :: i < j < |trace| ==> !ChangesPort(trace[j]);
      assert more[i].PortOpened?;
    } else if OpenAfter(more) {
      var i :| 0 <= i < |more| && more[i].PortOpened? && forall j :: i < j < |more| ==> !ChangesPort(more[j]);
      assert more[|trace|] == event && !ChangesPort(more[|trace|]);
      assert trace[i].PortOpened?;
      forall j | i < j < |trace|
        ensures !ChangesPort(trace[j])
      {
        assert more[j] == trace[j];
      }
    }
  }

  /** The other folds, one event further. */
  lemma FoldOneMore(trace: seq<PortEvent>, event: PortEvent)
    ensures ReadBytes(trace + [event]) == ReadBytes(trace) + (if event.BytesRead? then event.bytes else 0)
    ensures Discarded(trace + [event]) ==
              if event.BytesDiscarded? then OneMore(Discarded(trace), event.reason) else Discarded(trace)
    ensures FailedOpens(trace + [event]) ==
              if event.PortOpenFailed? then OneMore(FailedOpens(trace), event.failed) else FailedOpens(trace)
    ensures LastFailure(trace + [event]) ==
              match event
              case PortLost(c) => c
              case PortOpenFailed(c) => c
              case _ => LastFailure(trace)
  {
    assert (trace + [event])[..|trace|] == trace;
  }

  /** What the keepalive's fields come to. */
  datatype Totals = Totals(open: bool, failureClass: ErrorClass, rxBytes: nat, discards: multiset<DiscardReason>,
                           failedOpens: multiset<ErrorClass>)

  ghost function TotalsOf(trace: seq<PortEvent>): Totals {
    Totals(OpenAfter(trace), LastFailure(trace), ReadBytes(trace), Discarded(trace), FailedOpens(trace))
  }

  function Counted(totals: Totals, event: PortEvent): Totals {
    match event
    case PortOpened => totals.(open := true)
    case PortClosed => totals.(open := false)
    case PortLost(class_) => totals.(open := false, failureClass := class_)
    case PortOpenFailed(class_) =>
      totals.(open := false, failureClass := class_, failedOpens := OneMore(totals.failedOpens, class_))
    case BytesDiscarded(reason, _) => totals.(discards := OneMore(totals.discards, reason))
    case BytesRead(bytes) => totals.(rxBytes := totals.rxBytes + bytes)
  }

  /** Counting one event at a time folds the whole trace. */
  lemma CountingFolds(trace: seq<PortEvent>, event: PortEvent)
    ensures TotalsOf(trace + [event]) == Counted(TotalsOf(trace), event)
  {
    hide OpenAfter, ReadBytes, Discarded, FailedOpens, LastFailure, OneMore;
    OpenOneMore(trace, event);
    FoldOneMore(trace, event);
  }

  lemma NothingCounted()
    ensures TotalsOf([]) == Totals(false, Unknown, 0, multiset{}, multiset{})
  {
  }

  class Pipeline {
    var open: bool
    var failureClass: ErrorClass
    var rxBytes: nat
    var discards: multiset<DiscardReason>
    var failedOpens: multiset<ErrorClass>
    /** Whether the channel that tells a waiting tx of an open holds its value. */
    var openedToken: bool
    ghost var trace: seq<PortEvent>

    ghost function Now(): Totals
      reads this
    {
      Totals(open, failureClass, rxBytes, discards, failedOpens)
    }

    /** The fields are the fold of every event counted. */
    ghost predicate Valid()
      reads this
    {
      Now() == TotalsOf(trace)
    }

    constructor ()
      ensures Valid() && trace == []
    {
      open, failureClass, rxBytes := false, Unknown, 0;
      discards, failedOpens := multiset{}, multiset{};
      openedToken, trace := false, [];
      new;
      NothingCounted();
    }

    method Count(event: PortEvent)
      requires Valid()
      modifies this
      ensures Valid() && trace == old(trace) + [event]
      ensures event.PortOpened? ==> openedToken
    {
      hide TotalsOf, Counted;
      CountingFolds(trace, event);
      Update(event);
      trace := trace + [event];
    }

    method Update(event: PortEvent)
      modifies this
      ensures Now() == Counted(old(Now()), event) && trace == old(trace)
      ensures event.PortOpened? ==> openedToken
    {
      hide OneMore;
      match event {
        case PortOpened =>
          open := true;
          openedToken := true;
        case PortClosed =>
          open := false;
        case PortLost(class_) =>
          open := false;
          failureClass := class_;
        case PortOpenFailed(class_) =>
          open := false;
          failureClass := class_;
          failedOpens := OneMore(failedOpens, class_);
        case BytesDiscarded(reason, _) =>
          discards := OneMore(discards, reason);
        case BytesRead(bytes) =>
          rxBytes := rxBytes + bytes;
      }
    }
  }
}
