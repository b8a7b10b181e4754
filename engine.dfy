/**
 * The script's module-level state and its callbacks: the rebuild gate on `lastCount`, the
 * mutation debounce through one animation-frame slot, the polling and URL-watch intervals,
 * `boot`, the row click handler and the Markdown export. Timers, observers and animation
 * frames are not simulated in time: each callback is a method the environment calls, and a
 * cleared interval or cancelled frame is simply never called again.
 */
module Engine {
  import opened Wrappers
  import opened Dom
  import opened Scanner
  import opened Tagger
  import opened Render
  import opened Locate
  import opened Export

  /** `mutations.some(m => m.addedNodes.length)`, each record given by its number of added nodes. */
  predicate AnyAdded(batch: seq<nat>) {
    exists k :: 0 <= k < |batch| && batch[k] > 0
  }

  /** What the debounce sees: an observer notification, or the scheduled frame firing. */
  datatype FrameSignal = Notify(batch: seq<nat>) | FrameFires

  /** Whether a frame is pending, and how many times a frame has called `rebuild(false)`. */
  datatype Debounce = Debounce(pending: bool, rebuilds: nat)

  /**
   * One signal. A notification never rebuilds and never drops a pending frame; the frame
   * empties the slot; no signal rebuilds more than once.
   */
  function DebounceStep(d: Debounce, s: FrameSignal): (r: Debounce)
    ensures r.rebuilds <= d.rebuilds + 1
    ensures s.Notify? ==> r.rebuilds == d.rebuilds && (d.pending ==> r.pending)
    ensures s.FrameFires? ==> !r.pending && (r.rebuilds == d.rebuilds + 1 <==> d.pending)
  {
    match s
    case Notify(batch) => if AnyAdded(batch) then d.(pending := true) else d
    case FrameFires => if d.pending then Debounce(false, d.rebuilds + 1) else d
  }

  function Debounced(d: Debounce, signals: seq<FrameSignal>): Debounce
    decreases |signals|
  {
    if signals == [] then d else Debounced(DebounceStep(d, signals[0]), signals[1..])
  }

  /** Some notification of the burst reported added nodes. */
  predicate BurstAdds(signals: seq<FrameSignal>) {
    exists k :: 0 <= k < |signals| && signals[k].Notify? && AnyAdded(signals[k].batch)
  }

  /**
   * A burst of notifications leaves a frame pending exactly when one was pending before or
   * some notification reported added nodes, and triggers no rebuild by itself.
   */
  lemma {:induction false} BurstLeavesOnePending(d: Debounce, signals: seq<FrameSignal>)
    requires forall k :: 0 <= k < |signals| ==> signals[k].Notify?
    ensures Debounced(d, signals) == Debounce(d.pending || BurstAdds(signals), d.rebuilds)
    decreases |signals|
  {
    if signals != [] {
      var rest := signals[1..];
      BurstLeavesOnePending(DebounceStep(d, signals[0]), rest);
      if BurstAdds(rest) {
        var k :| 0 <= k < |rest| && rest[k].Notify? && AnyAdded(rest[k].batch);
        assert signals[k + 1] == rest[k];
      }
      if BurstAdds(signals) && !AnyAdded(signals[0].batch) {
        var k :| 0 <= k < |signals| && signals[k].Notify? && AnyAdded(signals[k].batch);
        assert rest[k - 1] == signals[k];
      }
    }
  }

  /** Any burst of notifications followed by the frame yields at most one `rebuild(false)`, and exactly one if anything was added. */
  lemma {:induction false} BurstCoalesces(d: Debounce, signals: seq<FrameSignal>)
    requires forall k :: 0 <= k < |signals| ==> signals[k].Notify?
    ensures Debounced(d, signals + [FrameFires])
         == Debounce(false, d.rebuilds + if d.pending || BurstAdds(signals) then 1 else 0)
  {
    DebouncedAppend(d, signals, [FrameFires]);
    BurstLeavesOnePending(d, signals);
    assert [FrameFires][1..] == [];
  }

  lemma {:induction false} DebouncedAppend(d: Debounce, xs: seq<FrameSignal>, ys: seq<FrameSignal>)
    ensures Debounced(d, xs + ys) == Debounced(Debounced(d, xs), ys)
    decreases |xs|
  {
    if xs != [] {
      assert (xs + ys)[1..] == xs[1..] + ys;
      DebouncedAppend(DebounceStep(d, xs[0]), xs[1..], ys);
    } else {
      assert xs + ys == ys;
    }
  }

  /** Ten notifications, five of which add one node each, then the frame: one rebuild. */
  lemma {:induction false} TenNotificationsOneRebuild()
    ensures var burst := seq(10, k => Notify(if k % 2 == 0 then [1] else []));
      Debounced(Debounce(false, 0), burst + [FrameFires]) == Debounce(false, 1)
  {
    var burst := seq(10, k => Notify(if k % 2 == 0 then [1] else []));
    assert burst[0].Notify? && burst[0].batch[0] > 0;
    BurstCoalesces(Debounce(false, 0), burst);
  }

  /** Items whose captions are single lines export as the heading, a blank line and one line per row. */
  lemma {:induction false} ExportedLines(items: seq<Item>)
    requires items != []
    requires forall k :: 0 <= k < |items| ==> '\n' !in items[k].caption
    ensures SplitLines(Markdown(Rows(items))) == [Heading, ""] + Rows(items)
  {
    RowsSingleLine(items);
  }

  class Engine {
    /** Number of items at the last render; -1 before the first. */
    var lastCount: int
    /** The items of the last render: what the row click handlers refer to. */
    var items: seq<Item>
    /** Every rendering so far, in order. */
    var renders: seq<View>
    /** `observeMutations._raf` names a frame that has neither fired nor been cancelled. */
    var framePending: bool
    /** Animation-frame callbacks scheduled and neither fired nor cancelled. */
    var liveFrames: nat
    /** Mutation observers attached to the document body by `observeMutations`. */
    var observers: nat
    /** `pollTimer` holds an interval (it is never cleared except by the next `startPolling`). */
    var pollSlot: bool
    /** Polling intervals running. */
    var livePolls: nat
    /** `urlWatchTimer` holds an interval. */
    var urlSlot: bool
    /** URL-watch intervals running. */
    var liveUrlWatches: nat
    /** The location the URL watcher last saw (its closure variable `last`). */
    var lastHref: string

    ghost predicate Valid()
      reads this`framePending, this`liveFrames, this`pollSlot, this`livePolls, this`urlSlot, this`liveUrlWatches
      reads this`lastCount, this`items, this`renders
    {
      TimersValid() && ListValid()
    }

    /** Clearing or cancelling the handle in a slot before replacing it keeps at most one of each running. */
    ghost predicate TimersValid()
      reads this`framePending, this`liveFrames, this`pollSlot, this`livePolls, this`urlSlot, this`liveUrlWatches
    {
      && liveFrames == (if framePending then 1 else 0)
      && livePolls == (if pollSlot then 1 else 0)
      && liveUrlWatches == (if urlSlot then 1 else 0)
    }

    /** `lastCount` is -1 exactly before the first render, and afterwards the size of the list on screen. */
    ghost predicate ListValid()
      reads this`lastCount, this`items, this`renders
    {
      && lastCount >= -1
      && (lastCount == -1 <==> renders == [])
      && (renders != [] ==> lastCount == |items| && Shows(renders[|renders| - 1], items))
    }

    /** The effect of `rebuild(force)` on this state and the page, between the pre- and post-state. */
    twostate predicate RebuildEffect(force: bool, page: Page)
      reads this`lastCount, this`items, this`renders, page`visible, page`matches, page`nodes
    {
      var scanned := Scan(page.visible, page.matches);
      && (forall x :: x in scanned ==> x in old(page.nodes))
      && lastCount == |scanned|
      && if !force && |scanned| == old(lastCount) then
           items == old(items) && renders == old(renders) && page.nodes == old(page.nodes)
         else Redrawn(page, scanned)
    }

    /** Past the gate: the scan is tagged, its items are the list, and one rendering of them is appended. */
    twostate predicate Redrawn(page: Page, scanned: seq<NodeRef>)
      reads this`items, this`renders, page`nodes
    {
      && (forall x :: x in scanned ==> x in old(page.nodes))
      && page.nodes == TagAll(old(page.nodes), scanned)
      && items == NormalizeAll(old(page.nodes), scanned)
      && |renders| == |old(renders)| + 1
      && renders[..|old(renders)|] == old(renders)
      && Shows(renders[|renders| - 1], items)
    }

    /** The script's state when it is injected: nothing rendered, nothing armed. */
    constructor ()
      ensures Valid()
      ensures lastCount == -1 && items == [] && renders == []
      ensures !framePending && observers == 0 && !pollSlot && !urlSlot
    {
      lastCount := -1;
      items := [];
      renders := [];
      framePending := false;
      liveFrames := 0;
      observers := 0;
      pollSlot := false;
      livePolls := 0;
      urlSlot := false;
      liveUrlWatches := 0;
      lastHref := "";
    }

    /** `rebuild(force)`: scan; unless forced, stop when the count is unchanged; else record it, tag, render. */
    method Rebuild(force: bool, page: Page)
      requires Valid() && page.Valid()
      modifies this`lastCount, this`items, this`renders, page`nodes
      ensures Valid()
      ensures page.Valid()
      ensures RebuildEffect(force, page)
    {
      var scanned := QueryUserMessages(page);
      if !force && |scanned| == lastCount {
        return;
      }
      Redraw(page, scanned);
    }

    /** The part of `rebuild` past the gate: record the count, tag the scan and derive its items, render them. */
    method Redraw(page: Page, scanned: seq<NodeRef>)
      requires ListValid() && page.Valid()
      requires forall x :: x in scanned ==> x in page.nodes
      modifies this`lastCount, this`items, this`renders, page`nodes
      ensures ListValid() && page.Valid()
      ensures lastCount == |scanned|
      ensures Redrawn(page, scanned)
    {
      lastCount := |scanned|;
      var its := NormalizeItems(page, scanned);
      var view := BuildList(its);
      items := its;
      renders := renders + [view];
      assert renders[|renders| - 1] == view;
      assert renders[..|old(renders)|] == old(renders);
    }

    /** Two `rebuild(false)` calls in a row on an unchanged page render at most once. */
    method RebuildTwice(page: Page)
      requires Valid() && page.Valid()
      modifies this`lastCount, this`items, this`renders, page`nodes
      ensures Valid() && page.Valid()
      ensures |renders| <= |old(renders)| + 1
    {
      Rebuild(false, page);
      ghost var afterFirst := |renders|;
      Rebuild(false, page);
      assert |renders| == afterFirst;
    }

    /** The observer callback: on added nodes, cancel the frame in the slot and request a new one. */
    method OnMutations(batch: seq<nat>)
      requires Valid() && observers > 0
      modifies this`framePending, this`liveFrames
      ensures Valid()
      ensures AnyAdded(batch) ==> framePending && liveFrames == 1
      ensures !AnyAdded(batch) ==> framePending == old(framePending) && liveFrames == old(liveFrames)
      ensures Debounce(framePending, 0) == DebounceStep(Debounce(old(framePending), 0), Notify(batch))
    {
      if AnyAdded(batch) {
        if framePending {
          liveFrames := liveFrames - 1;
        }
        liveFrames := liveFrames + 1;
        framePending := true;
      }
    }

    /** The requested frame fires (only a frame still pending can): it calls `rebuild(false)`. */
    method OnFrame(page: Page) returns (ran: bool)
      requires Valid() && page.Valid()
      modifies this`framePending, this`liveFrames, this`lastCount, this`items, this`renders, page`nodes
      ensures Valid() && page.Valid()
      ensures ran == old(framePending) && !framePending && liveFrames == 0
      ensures ran ==> RebuildEffect(false, page)
      ensures !ran ==> unchanged(this) && unchanged(page)
    {
      ran := framePending;
      if framePending {
        framePending := false;
        liveFrames := liveFrames - 1;
        Rebuild(false, page);
      }
    }

    /** `observeMutations`: attach one more observer to the body. */
    method ObserveMutations()
      modifies this`observers
      ensures observers == old(observers) + 1
    {
      observers := observers + 1;
    }

    /** `startPolling`: clear the interval in the slot, if any, and start a new one. */
    method StartPolling()
      requires TimersValid()
      modifies this`pollSlot, this`livePolls
      ensures TimersValid()
      ensures pollSlot && livePolls == 1
    {
      if pollSlot {
        livePolls := livePolls - 1;
      }
      livePolls := livePolls + 1;
      pollSlot := true;
    }

    /** The polling interval fires: `rebuild(false)`. */
    method OnPoll(page: Page)
      requires Valid() && page.Valid()
      modifies this`lastCount, this`items, this`renders, page`nodes
      ensures Valid() && page.Valid()
      ensures pollSlot ==> RebuildEffect(false, page)
      ensures !pollSlot ==> unchanged(this) && unchanged(page)
    {
      if pollSlot {
        Rebuild(false, page);
      }
    }

    /** `watchUrlChanges`: remember the current location, clear the interval in the slot, start a new one. */
    method WatchUrlChanges(href: string)
      requires TimersValid()
      modifies this`urlSlot, this`liveUrlWatches, this`lastHref
      ensures TimersValid()
      ensures urlSlot && liveUrlWatches == 1 && lastHref == href
    {
      lastHref := href;
      if urlSlot {
        liveUrlWatches := liveUrlWatches - 1;
      }
      liveUrlWatches := liveUrlWatches + 1;
      urlSlot := true;
    }

    /** The tail of a first boot: attach the observer, start the URL watcher, start polling. */
    method StartWatching(href: string)
      requires TimersValid()
      modifies this`observers, this`pollSlot, this`livePolls, this`urlSlot, this`liveUrlWatches, this`lastHref
      ensures TimersValid()
      ensures observers == old(observers) + 1 && pollSlot && livePolls == 1
      ensures urlSlot && liveUrlWatches == 1 && lastHref == href
    {
      ObserveMutations();
      WatchUrlChanges(href);
      StartPolling();
    }

    /**
     * `boot(fromUrlChange)`: a forced rebuild; only the first boot arms the observer, the URL
     * watcher and the poller, a reboot leaves them as they are.
     */
    method Boot(fromUrlChange: bool, page: Page, href: string)
      requires Valid() && page.Valid()
      modifies this, page`nodes
      ensures Valid() && page.Valid()
      ensures RebuildEffect(true, page)
      ensures framePending == old(framePending)
      ensures fromUrlChange ==>
        && observers == old(observers) && pollSlot == old(pollSlot) && livePolls == old(livePolls)
        && urlSlot == old(urlSlot) && liveUrlWatches == old(liveUrlWatches) && lastHref == old(lastHref)
      ensures !fromUrlChange ==>
        && observers == old(observers) + 1 && pollSlot && livePolls == 1
        && urlSlot && liveUrlWatches == 1 && lastHref == href
    {
      Rebuild(true, page);
      if !fromUrlChange {
        StartWatching(href);
      }
    }

    /** The URL-watch interval fires with the current location: on a change, remember it and reboot. */
    method OnUrlTick(href: string, page: Page)
      requires Valid() && page.Valid()
      modifies this, page`nodes
      ensures Valid() && page.Valid()
      ensures old(urlSlot) && href != old(lastHref) ==>
        && lastHref == href && RebuildEffect(true, page)
        && framePending == old(framePending) && observers == old(observers)
        && pollSlot == old(pollSlot) && livePolls == old(livePolls)
        && urlSlot == old(urlSlot) && liveUrlWatches == old(liveUrlWatches)
      ensures !(old(urlSlot) && href != old(lastHref)) ==> unchanged(this) && unchanged(page)
    {
      if urlSlot && href != lastHref {
        lastHref := href;
        Boot(true, page, href);
      }
    }

    /** A click on row `i`: jump by id, else start a search by message id, else alert. */
    method Click(i: nat, page: Page) returns (action: ClickAction, search: Locator?)
      requires page.Valid() && i < |items|
      ensures action == Dispatch(page, items[i])
      ensures (search != null) == action.SearchByMessageId?
      ensures search != null ==> fresh(search) && search.target == action.target && search.State() == Started
    {
      action := Dispatch(page, items[i]);
      search := null;
      if action.SearchByMessageId? {
        search := new Locator(action.target);
      }
    }

    /**
     * `exportMarkdown`'s text: scan and tag like a rebuild (without the gate), number each item
     * as a row, and put the rows under the heading. Each item becomes exactly one line.
     */
    method ExportMarkdown(page: Page) returns (md: string)
      requires page.Valid()
      modifies page`nodes
      ensures page.Valid()
      ensures var scanned := Scan(page.visible, page.matches);
        && (forall x :: x in scanned ==> x in old(page.nodes))
        && page.nodes == TagAll(old(page.nodes), scanned)
        && md == Markdown(Rows(NormalizeAll(old(page.nodes), scanned)))
        && (scanned != [] ==> SplitLines(md) == [Heading, ""] + Rows(NormalizeAll(old(page.nodes), scanned)))
    {
      var scanned := QueryUserMessages(page);
      var its := NormalizeItems(page, scanned);
      md := Markdown(Rows(its));
      if scanned != [] {
        ExportedLines(its);
      }
    }
  }

  /** The script's entry point: create the state and `boot(false)`. */
  method Start(page: Page, href: string) returns (e: Engine)
    requires page.Valid()
    modifies page`nodes
    ensures fresh(e) && e.Valid() && page.Valid()
    ensures e.lastCount == |Scan(page.visible, page.matches)| && |e.renders| == 1
    ensures e.observers == 1 && e.livePolls == 1 && e.liveUrlWatches == 1 && !e.framePending
  {
    e := new Engine();
    e.Boot(false, page, href);
  }
}
