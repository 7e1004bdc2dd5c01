/**
 * The notification queue (client services/toast.service.ts): each toast gets the next
 * id, is appended to the queue, and is removed again by id. The timer that removes a
 * toast after its duration is returned to the caller rather than started.
 */
module ToastService {
  import opened Js
  import opened Query

  datatype Kind = Success | Error | Info | Warning

  datatype Toast = Toast(id: int, message: string, kind: Kind, duration: int)

  /** A toast a component asks for with `success`, `error`, `info` or `warning`: its kind
    * and its text. The queue gives it an id and a duration (`ToastQueue.Show`). */
  datatype Notice = Notice(kind: Kind, message: string)

  /** A pending `setTimeout(() => remove(toastId), delay)`. */
  datatype Timer = Timer(toastId: int, delay: int)

  const DefaultDuration := 3000
  const ErrorDuration := 4000

  /** Ids grow along the queue and stay below the next id to hand out. */
  predicate ToastsValid(toasts: seq<Toast>, nextId: int)
  {
    (forall i :: 0 <= i < |toasts| ==> toasts[i].id < nextId)
    && (forall i, j :: 0 <= i < j < |toasts| ==> toasts[i].id < toasts[j].id)
  }

  /** The filter `t => t.id !== id`. */
  function OtherThan(id: int): Toast -> bool
  {
    (t: Toast) => t.id != id
  }

  /** The timer `show` starts: only for a positive duration. */
  function TimerFor(id: int, duration: int): (t: Option<Timer>)
    ensures t.Some? <==> duration > 0
    ensures t.Some? ==> t.value.toastId == id && t.value.delay == duration
  {
    if duration > 0 then Some(Timer(id, duration)) else None
  }

  /** Removing an id that is not queued changes nothing. */
  lemma RemoveUnknownIsNoOp(toasts: seq<Toast>, id: int)
    requires forall k :: 0 <= k < |toasts| ==> toasts[k].id != id
    ensures Filter(toasts, OtherThan(id)) == toasts
  {
    FilterKeepsAll(toasts, OtherThan(id));
  }

  /** Removing the toast just shown gives back the queue as it was before. */
  lemma RemoveUndoesShow(toasts: seq<Toast>, nextId: int, message: string, kind: Kind, duration: int)
    requires ToastsValid(toasts, nextId)
    ensures Filter(toasts + [Toast(nextId, message, kind, duration)], OtherThan(nextId)) == toasts
  {
    FilterAppend(toasts, Toast(nextId, message, kind, duration), OtherThan(nextId));
    RemoveUnknownIsNoOp(toasts, nextId);
  }

  /** Removing keeps the queue's invariant, and the other toasts in order. */
  lemma RemoveKeepsValid(toasts: seq<Toast>, nextId: int, id: int)
    requires ToastsValid(toasts, nextId)
    ensures ToastsValid(Filter(toasts, OtherThan(id)), nextId)
  {
    var r := Filter(toasts, OtherThan(id));
    FilterSubMultiset(toasts, OtherThan(id));
    FilterIncreasing(toasts, OtherThan(id), (t: Toast) => t.id);
    forall k | 0 <= k < |r|
      ensures r[k].id < nextId
    {
      var m :| 0 <= m < |toasts| && toasts[m] == r[k];
    }
  }

  class ToastQueue {
    var toasts: seq<Toast>
    var nextId: int

    predicate Valid()
      reads this
    {
      ToastsValid(toasts, nextId)
    }

    /** The queue starts empty and the first id is 1. */
    constructor ()
      ensures Valid() && toasts == [] && nextId == 1
    {
      toasts := [];
      nextId := 1;
    }

    /** `show`: the new toast takes the next id and goes to the end of the queue. */
    method Show(message: string, kind: Kind := Info, duration: int := DefaultDuration) returns (timer: Option<Timer>)
      requires Valid()
      modifies this
      ensures Valid()
      ensures toasts == old(toasts) + [Toast(old(nextId), message, kind, duration)]
      ensures nextId == old(nextId) + 1
      ensures timer == TimerFor(old(nextId), duration)
    {
      var toast := Toast(nextId, message, kind, duration);
      nextId := nextId + 1;
      toasts := toasts + [toast];
      timer := TimerFor(toast.id, duration);
    }

    /** `success`: three seconds unless told otherwise. */
    method Succeed(message: string, duration: int := DefaultDuration) returns (timer: Option<Timer>)
      requires Valid()
      modifies this
      ensures Valid()
      ensures toasts == old(toasts) + [Toast(old(nextId), message, Success, duration)]
      ensures nextId == old(nextId) + 1
      ensures timer == TimerFor(old(nextId), duration)
    {
      timer := Show(message, Success, duration);
    }

    /** `error`: four seconds unless told otherwise. */
    method Fail(message: string, duration: int := ErrorDuration) returns (timer: Option<Timer>)
      requires Valid()
      modifies this
      ensures Valid()
      ensures toasts == old(toasts) + [Toast(old(nextId), message, Error, duration)]
      ensures nextId == old(nextId) + 1
      ensures timer == TimerFor(old(nextId), duration)
    {
      timer := Show(message, Error, duration);
    }

    /** `info`: three seconds unless told otherwise. */
    method Inform(message: string, duration: int := DefaultDuration) returns (timer: Option<Timer>)
      requires Valid()
      modifies this
      ensures Valid()
      ensures toasts == old(toasts) + [Toast(old(nextId), message, Info, duration)]
      ensures nextId == old(nextId) + 1
      ensures timer == TimerFor(old(nextId), duration)
    {
      timer := Show(message, Info, duration);
    }

    /** `warning`: three seconds unless told otherwise. */
    method Warn(message: string, duration: int := DefaultDuration) returns (timer: Option<Timer>)
      requires Valid()
      modifies this
      ensures Valid()
      ensures toasts == old(toasts) + [Toast(old(nextId), message, Warning, duration)]
      ensures nextId == old(nextId) + 1
      ensures timer == TimerFor(old(nextId), duration)
    {
      timer := Show(message, Warning, duration);
    }

    /** `remove`: every toast with that id leaves the queue; the rest keep their order. */
    method Remove(id: int)
      requires Valid()
      modifies this
      ensures Valid() && nextId == old(nextId)
      ensures toasts == Filter(old(toasts), OtherThan(id))
      ensures forall k :: 0 <= k < |toasts| ==> toasts[k].id != id
    {
      RemoveKeepsValid(toasts, nextId, id);
      toasts := Filter(toasts, OtherThan(id));
    }
  }
}
