/**
 * The before/after event helpers (OnGetting/OnGetted, OnCounting/OnCounted, ...):
 * one before event (Xxxing, cancellable) and one after event (Xxxed) per operation kind.
 */
module Events {
  import opened Wrappers
  import opened Conditions

  /** The nine operation kinds that carry an event pair. */
  datatype EventKind = Get | Count | Execute | Exists | Increment | Delete | Insert | Update | Select

  /** The context the storage hands to an event helper. */
  datatype Context = Context(name: string, condition: Option<Condition>, state: Value)

  /** A before-event subscriber: given the context and the Cancel flag as it finds it, the flag it leaves. */
  type BeforeHandler = (Context, bool) -> bool

  /** An after-event subscriber, known only by which one it is. */
  type AfterHandler = nat

  /** The subscriber lists of every event, in subscription order. */
  datatype Subscriptions = Subscriptions(
    before: EventKind -> seq<BeforeHandler>,
    after: EventKind -> seq<AfterHandler>)

  /** An after-event delivery: one event-argument object for the context, delivered to every subscriber. */
  datatype Notification = Notification(context: Context, receivers: seq<AfterHandler>)

  /** A multicast delegate run on one event-argument object: each handler in turn updates Cancel. */
  function Invoke(handlers: seq<BeforeHandler>, context: Context, cancel: bool): bool
  {
    if handlers == [] then cancel else Invoke(handlers[1..], context, handlers[0](context, cancel))
  }

  /**
   * OnXxxing: false when the event has no subscriber (no argument object is built),
   * otherwise the Cancel flag left by the subscribers on a fresh argument object.
   */
  function OnBefore(subscriptions: Subscriptions, kind: EventKind, context: Context): (cancel: bool)
    ensures subscriptions.before(kind) == [] ==> !cancel
  {
    var handlers := subscriptions.before(kind);
    if handlers == [] then false else Invoke(handlers, context, false)
  }

  /** OnXxxed: no argument object without subscribers; otherwise one, delivered to all subscribers. */
  function OnAfter(subscriptions: Subscriptions, kind: EventKind, context: Context): (r: Option<Notification>)
    ensures r.None? <==> subscriptions.after(kind) == []
    ensures r.Some? ==> r.value.context == context && r.value.receivers == subscriptions.after(kind)
  {
    var handlers := subscriptions.after(kind);
    if handlers == [] then None else Some(Notification(context, handlers))
  }

  /** Running two handler lists one after the other is running their concatenation. */
  lemma {:induction false} InvokeAppend(first: seq<BeforeHandler>, second: seq<BeforeHandler>, context: Context, cancel: bool)
    ensures Invoke(first + second, context, cancel) == Invoke(second, context, Invoke(first, context, cancel))
  {
    if first != [] {
      assert (first + second)[1..] == first[1..] + second;
      InvokeAppend(first[1..], second, context, first[0](context, cancel));
    } else {
      assert first + second == second;
    }
  }

  /** Subscribers that all leave Cancel as they find it never cancel. */
  lemma {:induction false} PassiveNeverCancels(handlers: seq<BeforeHandler>, context: Context, cancel: bool)
    requires forall i, b :: 0 <= i < |handlers| ==> handlers[i](context, b) == b
    ensures Invoke(handlers, context, cancel) == cancel
  {
    if handlers != [] {
      assert handlers[0](context, cancel) == cancel;
      PassiveNeverCancels(handlers[1..], context, cancel);
    }
  }

  /** A single subscriber's own decision is the result. */
  lemma SingleSubscriber(subscriptions: Subscriptions, kind: EventKind, context: Context)
    requires |subscriptions.before(kind)| == 1
    ensures OnBefore(subscriptions, kind, context) == subscriptions.before(kind)[0](context, false)
  {
    var hs := subscriptions.before(kind);
    assert hs[1..] == [];
    assert Invoke(hs, context, false) == Invoke(hs[1..], context, hs[0](context, false));
  }

  /** The last subscriber has the final word on Cancel. */
  lemma LastSubscriberDecides(subscriptions: Subscriptions, kind: EventKind, context: Context)
    requires subscriptions.before(kind) != []
    ensures var hs := subscriptions.before(kind);
      OnBefore(subscriptions, kind, context)
      == hs[|hs| - 1](context, Invoke(hs[..|hs| - 1], context, false))
  {
    var hs := subscriptions.before(kind);
    assert hs == hs[..|hs| - 1] + [hs[|hs| - 1]];
    InvokeAppend(hs[..|hs| - 1], [hs[|hs| - 1]], context, false);
  }
}
