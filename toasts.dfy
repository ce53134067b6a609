/**
 * The toast list of `src/composables/useToast.ts`: a module-wide list of
 * toasts under increasing ids, each removed by hand or by its timeout.
 * Scheduling a timeout is recorded by id; the runtime firing it is an
 * `Expire` call. Durations are integers.
 */
module Toasts {
  import opened Wrappers
  import opened IdLists

  datatype ToastKind = Success | Error | Warning | Info

  datatype ToastItem = ToastItem(id: nat, kind: ToastKind, message: string, duration: int)

  function ToastId(t: ToastItem): nat {
    t.id
  }

  /** The duration `addToast` uses when the caller passes none. */
  const DefaultDuration := 3000

  class ToastList {
    var toasts: seq<ToastItem>
    var nextId: nat
    /** Ids of toasts whose removal timeout is pending. */
    var scheduled: set<nat>

    /** Ids increase along the list and every id in use was issued before
        `nextId`. */
    ghost predicate Valid()
      reads this
    {
      Increasing(toasts, ToastId)
      && (forall t :: t in toasts ==> t.id < nextId)
      && (forall id :: id in scheduled ==> id < nextId)
    }

    constructor()
      ensures Valid() && toasts == [] && nextId == 0 && scheduled == {}
    {
      toasts := [];
      nextId := 0;
      scheduled := {};
    }

    /** `addToast`: appends a toast under the current `nextId`, advances the
        counter, and schedules removal when the duration is positive. */
    method AddToast(kind: ToastKind, message: string, duration: Option<int>)
      requires Valid()
      modifies this
      ensures Valid()
      ensures nextId == old(nextId) + 1
      ensures var d := duration.GetOr(DefaultDuration);
        toasts == old(toasts) + [ToastItem(old(nextId), kind, message, d)]
        && scheduled == if d > 0 then old(scheduled) + {old(nextId)} else old(scheduled)
    {
      var d := duration.GetOr(DefaultDuration);
      var id := nextId;
      nextId := nextId + 1;
      assert forall i :: 0 <= i < |toasts| ==> toasts[i].id < id by {
        forall i | 0 <= i < |toasts| ensures toasts[i].id < id {
          assert toasts[i] in toasts;
        }
      }
      AppendFresh(toasts, ToastId, ToastItem(id, kind, message, d));
      toasts := toasts + [ToastItem(id, kind, message, d)];
      if d > 0 {
        scheduled := scheduled + {id};
      }
    }

    /** `removeToast`: takes out the toast with that id, if present, keeping
        the others in order. */
    method RemoveToast(id: nat)
      requires Valid()
      modifies this
      ensures Valid()
      ensures toasts == RemoveFirst(old(toasts), ToastId, id)
      ensures nextId == old(nextId) && scheduled == old(scheduled)
    {
      var index := FindIndex(toasts, ToastId, id);
      ghost var before := toasts;
      if index > -1 {
        SpliceIsRemoveFirst(toasts, ToastId, id, index);
        toasts := toasts[..index] + toasts[index + 1..];
      } else {
        RemoveAbsent(toasts, ToastId, id);
      }
      RemoveFirstEffect(before, ToastId, id);
      assert forall t :: t in toasts ==> t in before by {
        forall t | t in toasts ensures t in before {
          var i :| 0 <= i < |toasts| && toasts[i] == t;
        }
      }
    }

    /** The removal timeout of toast `id` fires; it finds the toast only if
        it was not removed already. */
    method Expire(id: nat)
      requires Valid()
      modifies this
      ensures Valid()
      ensures id in old(scheduled) ==>
        toasts == RemoveFirst(old(toasts), ToastId, id) && scheduled == old(scheduled) - {id}
      ensures id !in old(scheduled) ==> toasts == old(toasts) && scheduled == old(scheduled)
      ensures nextId == old(nextId)
    {
      if id in scheduled {
        scheduled := scheduled - {id};
        RemoveToast(id);
      }
    }
  }
}
