/** What a caller of a streaming `run_stream` generator observes, in order: the
    updates it is yielded, then, once the loop is over, at most one thread
    notification. A caller that stops pulling early observes a prefix. */
module Streams {
  import opened Outcomes
  import opened Framework

  /** One observable step of a stream. */
  datatype Event<+P> =
    | Update(role: Role, text: string)   // a yielded fragment and its role
    | Notify(payload: P)     // the thread notification after the loop

  /** Everything a caller observes, in order. */
  type Log<+P> = seq<Event<P>>

  /** One ASSISTANT update per fragment, in order. */
  function Updates<P>(frags: seq<string>): Log<P>
  {
    seq(|frags|, i requires 0 <= i < |frags| => Update(Assistant, frags[i]))
  }

  /** The events of a stream that runs to completion: the updates, then the
      notification when there is one. */
  function Trace<P>(frags: seq<string>, note: Option<P>): Log<P>
  {
    Updates(frags) + (if note.Some? then [Notify(note.value)] else [])
  }

  /** The texts of the updates, in order. */
  function Fragments<P>(events: Log<P>): seq<string>
  {
    if |events| == 0 then []
    else (if events[0].Update? then [events[0].text] else []) + Fragments(events[1..])
  }

  /** Every update is an ASSISTANT update. */
  predicate AssistantUpdates<P>(events: Log<P>)
  {
    forall i :: 0 <= i < |events| && events[i].Update? ==> events[i].role == Assistant
  }

  /** The number of notifications. */
  function NotifyCount<P>(events: Log<P>): nat
  {
    if |events| == 0 then 0
    else (if events[0].Notify? then 1 else 0) + NotifyCount(events[1..])
  }

  lemma {:induction false} FragmentsAppend<P>(a: Log<P>, b: Log<P>)
    ensures Fragments(a + b) == Fragments(a) + Fragments(b)
    decreases |a|
  {
    if |a| == 0 {
      assert a + b == b;
    } else {
      assert (a + b)[1..] == a[1..] + b;
      FragmentsAppend(a[1..], b);
    }
  }

  lemma {:induction false} NotifyCountAppend<P>(a: Log<P>, b: Log<P>)
    ensures NotifyCount(a + b) == NotifyCount(a) + NotifyCount(b)
    decreases |a|
  {
    if |a| == 0 {
      assert a + b == b;
    } else {
      assert (a + b)[1..] == a[1..] + b;
      NotifyCountAppend(a[1..], b);
    }
  }

  /** Updates carry their fragments back out unchanged and never notify. */
  lemma {:induction false} UpdatesFacts<P>(frags: seq<string>)
    ensures Fragments(Updates<P>(frags)) == frags
    ensures NotifyCount(Updates<P>(frags)) == 0
    decreases |frags|
  {
    if |frags| > 0 {
      assert Updates<P>(frags)[1..] == Updates<P>(frags[1..]);
      UpdatesFacts<P>(frags[1..]);
    }
  }

  /** A completed stream yields exactly its fragments, in order, each as an
      ASSISTANT update, and notifies once if and only if there is a notification
      to make, as its last event. */
  lemma TraceFacts<P>(frags: seq<string>, note: Option<P>)
    ensures Fragments(Trace(frags, note)) == frags
    ensures NotifyCount(Trace(frags, note)) == if note.Some? then 1 else 0
    ensures |Trace(frags, note)| == |frags| + NotifyCount(Trace(frags, note))
    ensures note.Some? ==> Trace(frags, note)[|frags|] == Notify(note.value)
    ensures AssistantUpdates(Trace(frags, note))
  {
    var tail: Log<P> := if note.Some? then [Notify(note.value)] else [];
    UpdatesFacts<P>(frags);
    FragmentsAppend(Updates<P>(frags), tail);
    NotifyCountAppend(Updates<P>(frags), tail);
    if note.Some? {
      assert Fragments(tail) == [];
      assert NotifyCount(tail) == 1;
    }
  }

  /** A caller that stops after taking at most all the fragments, without the
      pull that would end the stream, sees no notification. */
  lemma AbandonedTraceNeverNotifies<P>(frags: seq<string>, note: Option<P>, k: nat)
    requires k <= |frags|
    ensures NotifyCount(Trace(frags, note)[..k]) == 0
  {
    assert Trace(frags, note)[..k] == Updates<P>(frags[..k]);
    UpdatesFacts<P>(frags[..k]);
  }
}
