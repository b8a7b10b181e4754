/**
 * Jumping from an outline row to its message. A click first looks the item's element up by
 * id; when that fails and the item has a message id, `autoScrollToMessageId` starts a search
 * that re-queries on every mutation notification, scrolls the chat a step on every interval
 * tick, and gives up with an alert when its deadline timer fires.
 */
module Locate {
  import opened Wrappers
  import opened Dom
  import opened Scanner
  import opened Tagger

  /** What a click on an outline row does. */
  datatype ClickAction =
    | ScrollTo(node: NodeRef)             // the element was found by id: scroll to it and highlight it
    | SearchByMessageId(target: string)   // start the search by message id
    | AlertNotFound                       // nothing to search with: tell the user to rescan

  /** The click handler of a row for `item`. */
  function Dispatch(page: Page, item: Item): (a: ClickAction)
    reads page
    requires page.Valid()
    ensures a.ScrollTo? <==> page.GetElementById(item.id).Some?
    ensures a.ScrollTo? ==> a.node in page.nodes && page.nodes[a.node].id == item.id
    ensures a.SearchByMessageId? <==> page.GetElementById(item.id).None? && item.messageId != ""
    ensures a.SearchByMessageId? ==> a.target == item.messageId
    ensures a.AlertNotFound? <==> page.GetElementById(item.id).None? && item.messageId == ""
  {
    match page.GetElementById(item.id)
    case Some(n) => ScrollTo(n)
    case None => if item.messageId != "" then SearchByMessageId(item.messageId) else AlertNotFound
  }

  /**
   * With the default ids as written, the row of the later message `a` jumps to the earlier
   * message `x`: after the two scans of `DefaultIdRepeatsAcrossScans` both hold the same id,
   * and `getElementById` returns the first in document order.
   */
  lemma {:induction false} RowJumpsToEarlierNamesake(page: Page, nodes: map<NodeRef, Node>, x: NodeRef, a: NodeRef)
    requires x in nodes && a in nodes && x != a
    requires nodes[x].anchor.None? && nodes[x].id == ""
    requires nodes[a].anchor.None? && nodes[a].id == ""
    requires page.Valid() && page.tree != [] && page.tree[0] == x
    requires page.nodes == TagAll(TagAll(nodes, [a]), [x, a])
    ensures Dispatch(page, NormalizeAll(TagAll(nodes, [a]), [x, a])[1]) == ScrollTo(x)
  {
    DefaultIdRepeatsAcrossScans(nodes, x, a);
    page.FirstHolderFound(DefaultId(0));
  }

  /**
   * The state of one search: the `found` flag, whether the mutation observer is connected,
   * whether the scroll interval is active, whether the deadline timer is still to fire, the
   * element highlighted (if any), whether the failure alert was shown, and the scroll steps taken.
   */
  datatype Search = Search(
    found: bool,
    observing: bool,
    scrolling: bool,
    deadlinePending: bool,
    highlighted: Option<NodeRef>,
    alerted: bool,
    steps: nat)

  /** What drives a search: a mutation notification (with the result of re-querying), an interval tick, the deadline. */
  datatype SearchEvent = Mutation(hit: Option<NodeRef>) | ScrollTick | Deadline

  /** Right after `autoScrollToMessageId` returns: observer connected, interval and deadline armed. */
  const Started: Search := Search(false, true, true, true, None, false, 0)

  /** The search's resolved outcome, if any. */
  predicate Resolved(s: Search) {
    s.found || s.alerted
  }

  /**
   * The invariant of a search: success and failure exclude each other; success is exactly
   * having highlighted an element; the observer and the interval live and die together, and
   * exactly while the search is unresolved; once the deadline has passed the search is resolved.
   */
  predicate Consistent(s: Search) {
    && (s.found <==> s.highlighted.Some?)
    && !(s.found && s.alerted)
    && s.observing == s.scrolling
    && (s.observing <==> !Resolved(s))
    && (!s.deadlinePending ==> Resolved(s))
    && (s.alerted ==> !s.deadlinePending)
  }

  /**
   * One event. A disconnected observer and a cleared interval deliver nothing, and the deadline
   * timer fires once. Every event keeps a consistent search consistent.
   */
  function Step(s: Search, e: SearchEvent): (r: Search)
    ensures Consistent(s) ==> Consistent(r)
  {
    match e
    case Mutation(hit) =>
      if s.observing && hit.Some? then
        s.(found := true, highlighted := hit, observing := false, scrolling := false)
      else s
    case ScrollTick =>
      if s.scrolling && !s.found then s.(steps := s.steps + 1) else s
    case Deadline =>
      if !s.deadlinePending then s
      else if s.found then s.(deadlinePending := false)
      else s.(deadlinePending := false, observing := false, scrolling := false, alerted := true)
  }

  /** A sequence of events, in order. */
  function Run(s: Search, es: seq<SearchEvent>): Search
    decreases |es|
  {
    if es == [] then s else Run(Step(s, es[0]), es[1..])
  }

  /** Every search, whatever the events, stays consistent. */
  lemma {:induction false} RunConsistent(s: Search, es: seq<SearchEvent>)
    requires Consistent(s)
    ensures Consistent(Run(s, es))
    decreases |es|
  {
    if es != [] {
      RunConsistent(Step(s, es[0]), es[1..]);
    }
  }

  /** Once resolved, the outcome, the highlighted element and the scroll count never change. */
  lemma {:induction false} ResolvedIsFinal(s: Search, es: seq<SearchEvent>)
    requires Consistent(s) && Resolved(s)
    ensures var t := Run(s, es);
      t.found == s.found && t.alerted == s.alerted && t.highlighted == s.highlighted &&
      t.steps == s.steps && !t.observing && !t.scrolling
    decreases |es|
  {
    if es != [] {
      ResolvedIsFinal(Step(s, es[0]), es[1..]);
    }
  }

  /**
   * Termination: once the deadline event has been delivered the search has either highlighted
   * an element or alerted, never both, and neither observer nor interval is left running.
   */
  lemma {:induction false} DeadlineResolves(s: Search, es: seq<SearchEvent>)
    requires Consistent(s)
    requires Deadline in es
    ensures var t := Run(s, es);
      Consistent(t) && (t.found != t.alerted) && !t.observing && !t.scrolling && !t.deadlinePending
    decreases |es|
  {
    RunConsistent(s, es);
    if es[0] == Deadline {
      RunConsistent(Step(s, es[0]), es[1..]);
      ResolvedIsFinal(Step(s, es[0]), es[1..]);
      DeadlinePassedStays(Step(s, es[0]), es[1..]);
    } else {
      DeadlineResolves(Step(s, es[0]), es[1..]);
    }
  }

  /** The deadline timer, once it has fired, is never pending again. */
  lemma {:induction false} DeadlinePassedStays(s: Search, es: seq<SearchEvent>)
    requires !s.deadlinePending
    ensures !Run(s, es).deadlinePending
    decreases |es|
  {
    if es != [] {
      DeadlinePassedStays(Step(s, es[0]), es[1..]);
    }
  }

  /**
   * The search only re-queries on a mutation notification: when no notification finds the
   * target, the deadline ends in the alert, even if the target was on the page all along.
   */
  lemma {:induction false} NoHitTimesOut(s: Search, es: seq<SearchEvent>)
    requires Consistent(s) && !Resolved(s) && s.deadlinePending
    requires forall k :: 0 <= k < |es| ==> es[k] != Deadline && (es[k].Mutation? ==> es[k].hit.None?)
    ensures var t := Run(s, es + [Deadline]);
      t.alerted && !t.found && t.highlighted.None?
    decreases |es|
  {
    if es != [] {
      assert (es + [Deadline])[1..] == es[1..] + [Deadline];
      NoHitTimesOut(Step(s, es[0]), es[1..]);
    } else {
      assert Run(s, [Deadline]) == Run(Step(s, Deadline), []);
    }
  }

  /** The target appears after two scroll steps: found and highlighted, and the later deadline alerts nothing. */
  lemma {:induction false} FoundAfterTwoSteps(n: NodeRef)
    ensures var t := Run(Started, [ScrollTick, ScrollTick, Mutation(Some(n))]);
      t.found && t.highlighted == Some(n) && t.steps == 2 && !t.observing && !t.scrolling
    ensures !Run(Started, [ScrollTick, ScrollTick, Mutation(Some(n)), Deadline]).alerted
  {
    var s1 := Step(Started, ScrollTick);
    var s2 := Step(s1, ScrollTick);
    var s3 := Step(s2, Mutation(Some(n)));
    var short := [ScrollTick, ScrollTick, Mutation(Some(n))];
    assert short[1..] == [ScrollTick, Mutation(Some(n))] && short[1..][1..] == [Mutation(Some(n))];
    assert Run(s2, [Mutation(Some(n))]) == Run(s3, []) == s3;
    assert Run(s1, short[1..]) == Run(s2, short[1..][1..]);
    assert Run(Started, short) == Run(s1, short[1..]);
    var long := short + [Deadline];
    assert long[1..] == [ScrollTick, Mutation(Some(n)), Deadline];
    assert long[1..][1..] == [Mutation(Some(n)), Deadline];
    assert long[1..][1..][1..] == [Deadline];
    assert Run(s3, [Deadline]) == Run(Step(s3, Deadline), []);
    assert Run(s2, long[1..][1..]) == Run(s3, [Deadline]);
    assert Run(s1, long[1..]) == Run(s2, long[1..][1..]);
    assert Run(Started, long) == Run(s1, long[1..]);
  }

  /** One search started by a click: the closure state of `autoScrollToMessageId`. */
  class Locator {
    const target: string
    var found: bool
    var observing: bool
    var scrolling: bool
    var deadlinePending: bool
    var highlighted: Option<NodeRef>
    var alerted: bool
    var steps: nat

    function State(): Search
      reads this
    {
      Search(found, observing, scrolling, deadlinePending, highlighted, alerted, steps)
    }

    /** Start searching for the element whose message id is `target`. */
    constructor (target: string)
      ensures this.target == target && State() == Started
    {
      this.target := target;
      found := false;
      observing := true;
      scrolling := true;
      deadlinePending := true;
      highlighted := None;
      alerted := false;
      steps := 0;
    }

    /** The observer callback: re-query; on a hit, set `found`, highlight, disconnect and clear the interval. */
    method OnMutation(page: Page)
      requires page.Valid()
      modifies this
      ensures State() == Step(old(State()), Mutation(page.QueryMessageId(target)))
    {
      if observing {
        var n := page.QueryMessageId(target);
        if n.Some? {
          found := true;
          highlighted := n;
          observing := false;
          scrolling := false;
        }
      }
    }

    /** The interval callback: scroll one step unless already found. */
    method OnScrollTick()
      modifies this
      ensures State() == Step(old(State()), ScrollTick)
    {
      if scrolling {
        if found {
          return;
        }
        steps := steps + 1;
      }
    }

    /** The deadline callback: if not found, disconnect, clear the interval and alert. */
    method OnDeadline()
      modifies this
      ensures State() == Step(old(State()), Deadline)
    {
      if deadlinePending {
        deadlinePending := false;
        if !found {
          observing := false;
          scrolling := false;
          alerted := true;
        }
      }
    }
  }
}
