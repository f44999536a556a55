/**
 * The visibility handler's routing to the three counters, and the per-element `animated`
 * flag that makes each counter one-shot, kept as a set of element identities.
 */
module Dispatch {
  import opened Wrappers
  import opened StatCounters

  /** The card classes whose visibility starts a counter. */
  datatype Role = StatCard | ServiceCard | RecoveryStat

  /** The numeric element inside a card (.stat-number, .service-metric, .recovery-number). */
  datatype Element = Element(id: nat, text: string)

  /** The new set of animated elements, and the counter started, if any. */
  datatype Outcome = Outcome(animated: set<nat>, started: Option<Setup>)

  /** The counter an unflagged element of this role starts; a "24/7" service metric starts none. */
  function SetupFor(role: Role, text: string): (r: Option<Setup>)
    ensures r.None? <==> role == ServiceCard && text == "24/7"
    ensures r.Some? && role == ServiceCard ==> r.value == MetricSetup(text)
    ensures r.Some? && role != ServiceCard ==> r.value == StatSetup(text)
    ensures r.Some? ==> (r.value.target.Some? ==> r.value.target.value >= 0.0)
  {
    match role
    case StatCard => Some(StatSetup(text))
    case RecoveryStat => Some(StatSetup(text))
    case ServiceCard => if text == "24/7" then None else Some(MetricSetup(text))
  }

  /**
   * A card of `role` became visible and `inner` is what querySelector found in it. A missing or
   * already flagged element changes nothing; otherwise the flag is set first, then a counter may start.
   */
  function Handle(animated: set<nat>, role: Role, inner: Option<Element>): (o: Outcome)
    ensures inner.None? || inner.value.id in animated ==> o == Outcome(animated, None)
    ensures inner.Some? && inner.value.id !in animated ==> o.animated == animated + {inner.value.id}
    ensures o.started.Some? ==> inner.Some? && inner.value.id !in animated
    ensures inner.Some? && inner.value.id !in animated ==> o.started == SetupFor(role, inner.value.text)
  {
    if inner.None? || inner.value.id in animated then Outcome(animated, None)
    else Outcome(animated + {inner.value.id}, SetupFor(role, inner.value.text))
  }

  /**
   * A second visibility event for the same element, through any role and whatever text a
   * counter has written into it meanwhile, does nothing.
   */
  lemma SecondEventIsNoOp(animated: set<nat>, r1: Role, r2: Role, e1: Element, e2: Element)
    requires e1.id == e2.id
    ensures Handle(Handle(animated, r1, Some(e1)).animated, r2, Some(e2))
         == Outcome(Handle(animated, r1, Some(e1)).animated, None)
  {
  }

  /** The first event for an element flags it, whether or not a counter starts. */
  lemma FirstEventFlags(animated: set<nat>, role: Role, e: Element)
    requires e.id !in animated
    ensures Handle(animated, role, Some(e)).animated == animated + {e.id}
  {
  }

  /**
   * The first event for an element that is not a "24/7" service metric starts the counter its
   * role sets up: `$`, `M` and `+` sniffed for stats and recovery numbers, only `+` for metrics.
   */
  lemma FirstEventStarts(animated: set<nat>, role: Role, e: Element)
    requires e.id !in animated && !(role == ServiceCard && e.text == "24/7")
    ensures Handle(animated, role, Some(e)).started
         == Some(if role == ServiceCard then MetricSetup(e.text) else StatSetup(e.text))
  {
  }

  /** A "24/7" service metric is flagged but not animated, so its text stays as it is. */
  lemma AlwaysOnIsSkipped(animated: set<nat>, id: nat)
    requires id !in animated
    ensures Handle(animated, ServiceCard, Some(Element(id, "24/7"))) == Outcome(animated + {id}, None)
  {
  }

  datatype Event = Event(role: Role, inner: Option<Element>)

  /** The elements whose counters start, in order, over a sequence of visibility events. */
  function Started(animated: set<nat>, events: seq<Event>): seq<nat>
    decreases |events|
  {
    if events == [] then []
    else
      var o := Handle(animated, events[0].role, events[0].inner);
      (if o.started.Some? then [events[0].inner.value.id] else []) + Started(o.animated, events[1..])
  }

  /**
   * Over any sequence of visibility events, no element starts two counters, and none that was
   * flagged beforehand starts one.
   */
  lemma {:induction false} StartsAtMostOnce(animated: set<nat>, events: seq<Event>)
    ensures forall k :: 0 <= k < |Started(animated, events)| ==> Started(animated, events)[k] !in animated
    ensures forall j, k :: 0 <= j < k < |Started(animated, events)| ==>
              Started(animated, events)[j] != Started(animated, events)[k]
    decreases |events|
  {
    if events != [] {
      var o := Handle(animated, events[0].role, events[0].inner);
      StartsAtMostOnce(o.animated, events[1..]);
      var rest := Started(o.animated, events[1..]);
      if o.started.Some? {
        var id := events[0].inner.value.id;
        assert id in o.animated;
        assert Started(animated, events) == [id] + rest;
      } else {
        assert Started(animated, events) == rest;
      }
    }
  }

  /** Owner of the `animated` flags; each call is one card becoming visible. */
  class Dispatcher {
    var animated: set<nat>

    constructor ()
      ensures animated == {}
    {
      animated := {};
    }

    method OnVisible(role: Role, inner: Option<Element>) returns (counter: Option<StatCounter>)
      modifies this
      ensures animated == Handle(old(animated), role, inner).animated
      ensures counter.Some? <==> Handle(old(animated), role, inner).started.Some?
      ensures counter.Some? ==>
                var c := counter.value;
                var setup := Handle(old(animated), role, inner).started.value;
                fresh(c) && c.Valid() && c.running && c.ticks == 0 &&
                c.format == setup.format && c.isNumber == setup.target.Some? &&
                (c.isNumber ==> c.target == setup.target.value && c.current == Start(c.target)) &&
                c.text == Raw(inner.value.text)
    {
      if inner.None? || inner.value.id in animated {
        return None;
      }
      animated := animated + {inner.value.id};
      var setup := SetupFor(role, inner.value.text);
      if setup.None? {
        return None;
      }
      var c := new StatCounter(setup.value, inner.value.text);
      counter := Some(c);
    }
  }
}
