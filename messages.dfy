/**
 * The message helpers of `src/composables/useMessage.ts`.
 *
 * `MessageSlots` is one `useMessage()` instance: a slot per message kind that
 * holds the text on show (null when absent) and the timer that will clear it.
 * `MessageList` is the module-wide list behind `useGlobalMessage()`, with the
 * shared id counter.
 *
 * Timers are explicit: scheduling a timeout issues a fresh token, and the
 * runtime firing it is an `Expire` call. A cancelled timer never fires, so its
 * `Expire` call changes nothing. Durations are integers.
 */
module Messages {
  import opened Wrappers
  import opened IdLists

  datatype Kind = Error | Success | Warning | Info

  datatype MessageItem = MessageItem(id: nat, kind: Kind, message: string)

  function MessageId(m: MessageItem): nat {
    m.id
  }

  /** The duration `addMessage` uses when the caller passes none. */
  const DefaultListDuration := 3000

  /** The duration used by `showX`: the one given, else `successDefault` for
      success messages and the instance's `defaultDuration` for the others. */
  function ShowDuration(kind: Kind, duration: Option<int>, defaultDuration: int, successDefault: int): (d: int)
    ensures duration.Some? ==> d == duration.value
    ensures duration.None? && kind == Success ==> d == successDefault
    ensures duration.None? && kind != Success ==> d == defaultDuration
  {
    duration.GetOr(if kind == Success then successDefault else defaultDuration)
  }

  /** A map with none of the four kinds as a key is empty. */
  lemma NoKindLeft<V>(m: map<Kind, V>)
    requires Error !in m && Success !in m && Warning !in m && Info !in m
    ensures m == map[]
  {
    forall k | k in m ensures false {
      match k
      case Error =>
      case Success =>
      case Warning =>
      case Info =>
    }
  }

  class MessageSlots {
    /** The text shown per kind; a kind absent from the map shows nothing. */
    var text: map<Kind, string>
    /** The timer pending per kind, by token. */
    var timer: map<Kind, nat>
    var nextToken: nat
    const defaultDuration: int
    const successDefault: int

    /** Every pending timer's token was issued before `nextToken`. */
    ghost predicate Valid()
      reads this
    {
      forall k :: k in timer ==> timer[k] < nextToken
    }

    constructor(defaultDuration: int, successDefault: int)
      ensures Valid()
      ensures text == map[] && timer == map[] && nextToken == 0
      ensures this.defaultDuration == defaultDuration && this.successDefault == successDefault
    {
      text := map[];
      timer := map[];
      nextToken := 0;
      this.defaultDuration := defaultDuration;
      this.successDefault := successDefault;
    }

    /** `clearTimer`: cancels the pending timer of `kind`, if any. */
    method ClearTimer(kind: Kind)
      requires Valid()
      modifies this
      ensures Valid()
      ensures timer == old(timer) - {kind}
      ensures text == old(text) && nextToken == old(nextToken)
    {
      if kind in timer {
        timer := timer - {kind};
      }
    }

    /** `showError`/`showSuccess`/`showWarning`/`showInfo`: sets the slot of
        `kind` and replaces its timer; a duration of 0 or less sets none.
        Other slots and their timers are untouched, and the timer the slot had
        before can no longer fire. */
    method Show(kind: Kind, message: string, duration: Option<int>)
      requires Valid()
      modifies this
      ensures Valid()
      ensures text == old(text)[kind := message]
      ensures var d := ShowDuration(kind, duration, defaultDuration, successDefault);
        if d > 0 then timer == old(timer)[kind := old(nextToken)] && nextToken == old(nextToken) + 1
        else timer == old(timer) - {kind} && nextToken == old(nextToken)
      ensures kind in old(timer) ==> kind !in timer || timer[kind] != old(timer)[kind]
    {
      ClearTimer(kind);
      text := text[kind := message];
      var actualDuration := ShowDuration(kind, duration, defaultDuration, successDefault);
      if actualDuration > 0 {
        timer := timer[kind := nextToken];
        nextToken := nextToken + 1;
      }
    }

    /** The timeout of `kind` issued as `token` fires: the slot empties if that
        timer is still the pending one; a cancelled timer does nothing. */
    method Expire(kind: Kind, token: nat)
      requires Valid()
      modifies this
      ensures Valid()
      ensures kind in old(timer) && old(timer)[kind] == token ==>
        text == old(text) - {kind} && timer == old(timer) - {kind}
      ensures !(kind in old(timer) && old(timer)[kind] == token) ==>
        text == old(text) && timer == old(timer)
      ensures nextToken == old(nextToken)
    {
      if kind in timer && timer[kind] == token {
        text := text - {kind};
        timer := timer - {kind};
      }
    }

    /** `clear(kind)`, and `clearError` for the error slot: only that slot
        and its timer. */
    method Clear(kind: Kind)
      requires Valid()
      modifies this
      ensures Valid()
      ensures text == old(text) - {kind} && timer == old(timer) - {kind}
      ensures nextToken == old(nextToken)
    {
      ClearTimer(kind);
      text := text - {kind};
    }

    /** `clearAll`: every slot and every timer. */
    method ClearAll()
      requires Valid()
      modifies this
      ensures Valid()
      ensures text == map[] && timer == map[]
      ensures nextToken == old(nextToken)
    {
      ClearTimer(Error);
      ClearTimer(Success);
      ClearTimer(Warning);
      ClearTimer(Info);
      NoKindLeft(timer);
      text := map[];
    }

    /** Unmounting the component cancels the timers; the texts stay. */
    method Unmount()
      requires Valid()
      modifies this
      ensures Valid()
      ensures timer == map[] && text == old(text) && nextToken == old(nextToken)
    {
      ClearTimer(Error);
      ClearTimer(Success);
      ClearTimer(Warning);
      ClearTimer(Info);
      NoKindLeft(timer);
    }
  }

  class MessageList {
    var messages: seq<MessageItem>
    var nextId: nat
    /** Ids of messages whose removal timeout is pending. */
    var scheduled: set<nat>

    /** Ids increase along the list and every id in use was issued before
        `nextId`. */
    ghost predicate Valid()
      reads this
    {
      Increasing(messages, MessageId)
      && (forall m :: m in messages ==> m.id < nextId)
      && (forall id :: id in scheduled ==> id < nextId)
    }

    constructor()
      ensures Valid() && messages == [] && nextId == 0 && scheduled == {}
    {
      messages := [];
      nextId := 0;
      scheduled := {};
    }

    /** `addMessage`: appends a message under a fresh id, returns that id and
        schedules its removal when the duration is positive. */
    method AddMessage(kind: Kind, message: string, duration: Option<int>) returns (id: nat)
      requires Valid()
      modifies this
      ensures Valid()
      ensures id == old(nextId) && nextId == old(nextId) + 1
      ensures messages == old(messages) + [MessageItem(id, kind, message)]
      ensures scheduled == if duration.GetOr(DefaultListDuration) > 0 then old(scheduled) + {id} else old(scheduled)
    {
      id := nextId;
      nextId := nextId + 1;
      assert forall i :: 0 <= i < |messages| ==> messages[i].id < id by {
        forall i | 0 <= i < |messages| ensures messages[i].id < id {
          assert messages[i] in messages;
        }
      }
      AppendFresh(messages, MessageId, MessageItem(id, kind, message));
      messages := messages + [MessageItem(id, kind, message)];
      if duration.GetOr(DefaultListDuration) > 0 {
        scheduled := scheduled + {id};
      }
    }

    /** `removeMessage`: takes out the message with that id, if present,
        keeping the others in order. */
    method RemoveMessage(id: nat)
      requires Valid()
      modifies this
      ensures Valid()
      ensures messages == RemoveFirst(old(messages), MessageId, id)
      ensures nextId == old(nextId) && scheduled == old(scheduled)
    {
      var index := FindIndex(messages, MessageId, id);
      ghost var before := messages;
      if index > -1 {
        SpliceIsRemoveFirst(messages, MessageId, id, index);
        messages := messages[..index] + messages[index + 1..];
      } else {
        RemoveAbsent(messages, MessageId, id);
      }
      RemoveFirstEffect(before, MessageId, id);
      assert forall m :: m in messages ==> m in before by {
        forall m | m in messages ensures m in before {
          var i :| 0 <= i < |messages| && messages[i] == m;
        }
      }
    }

    /** The removal timeout of message `id` fires. */
    method Expire(id: nat)
      requires Valid()
      modifies this
      ensures Valid()
      ensures id in old(scheduled) ==>
        messages == RemoveFirst(old(messages), MessageId, id) && scheduled == old(scheduled) - {id}
      ensures id !in old(scheduled) ==> messages == old(messages) && scheduled == old(scheduled)
      ensures nextId == old(nextId)
    {
      if id in scheduled {
        scheduled := scheduled - {id};
        RemoveMessage(id);
      }
    }
  }
}
