/**
 * The scan for user messages: the results of the four selectors taken in order, each node
 * kept once at its first occurrence (a JavaScript `Set` keeps insertion order), then only
 * the nodes with a non-empty bounding box.
 */
module Scanner {
  import opened Dom

  predicate NoDuplicates(s: seq<NodeRef>) {
    forall i, j :: 0 <= i < j < |s| ==> s[i] != s[j]
  }

  /** The sum of the lengths of the selector results. */
  function TotalLength(ms: seq<seq<NodeRef>>): nat {
    if ms == [] then 0 else TotalLength(ms[..|ms| - 1]) + |ms[|ms| - 1]|
  }

  /** The selector results one after the other, in selector order. */
  function Flatten(ms: seq<seq<NodeRef>>): (r: seq<NodeRef>)
    ensures |r| == TotalLength(ms)
    ensures forall i, x :: 0 <= i < |ms| && x in ms[i] ==> x in r
    ensures forall x :: x in r ==> exists i :: 0 <= i < |ms| && x in ms[i]
  {
    if ms == [] then []
    else
      var init := ms[..|ms| - 1];
      var r := Flatten(init) + ms[|ms| - 1];
      assert forall i :: 0 <= i < |ms| - 1 ==> ms[i] == init[i];
      r
  }

  /** `xs` with every element kept only at its first occurrence. */
  function Dedup(xs: seq<NodeRef>): (r: seq<NodeRef>)
    ensures |r| <= |xs|
    ensures forall x :: x in r <==> x in xs
    ensures NoDuplicates(r)
  {
    if xs == [] then []
    else
      var init := xs[..|xs| - 1];
      assert xs == init + [xs[|xs| - 1]];
      var d := Dedup(init);
      if xs[|xs| - 1] in d then d else d + [xs[|xs| - 1]]
  }

  /** The elements of `xs` that are visible, in their order. */
  function KeepVisible(visible: set<NodeRef>, xs: seq<NodeRef>): (r: seq<NodeRef>)
    ensures |r| <= |xs|
    ensures forall x :: x in r <==> x in xs && x in visible
  {
    if xs == [] then []
    else
      var init := xs[..|xs| - 1];
      assert xs == init + [xs[|xs| - 1]];
      var k := KeepVisible(visible, init);
      if xs[|xs| - 1] in visible then k + [xs[|xs| - 1]] else k
  }

  /** What the scan returns for the given selector results and layout. */
  function Scan(visible: set<NodeRef>, ms: seq<seq<NodeRef>>): (r: seq<NodeRef>)
    ensures NoDuplicates(r)
    ensures forall x :: x in r <==> x in visible && x in Flatten(ms)
  {
    KeepVisibleNoDuplicates(visible, Dedup(Flatten(ms)));
    KeepVisible(visible, Dedup(Flatten(ms)))
  }

  /** The position of the first occurrence of `x` in `xs`. */
  function FirstIndex(xs: seq<NodeRef>, x: NodeRef): (i: nat)
    requires x in xs
    ensures i < |xs| && xs[i] == x
    ensures forall j :: 0 <= j < i ==> xs[j] != x
  {
    if xs[0] == x then 0 else 1 + FirstIndex(xs[1..], x)
  }

  /** The elements of `s` occur in `xs`, and in the order of their first occurrences there. */
  predicate InFirstSeenOrder(s: seq<NodeRef>, xs: seq<NodeRef>) {
    && (forall x :: x in s ==> x in xs)
    && (forall i, j :: 0 <= i < j < |s| ==> FirstIndex(xs, s[i]) < FirstIndex(xs, s[j]))
  }

  lemma {:induction false} FirstIndexOfPrefix(ys: seq<NodeRef>, zs: seq<NodeRef>, x: NodeRef)
    requires x in ys
    ensures FirstIndex(ys + zs, x) == FirstIndex(ys, x)
  {
    assert (ys + zs)[FirstIndex(ys, x)] == x;
  }

  lemma {:induction false} DedupInFirstSeenOrder(xs: seq<NodeRef>)
    ensures InFirstSeenOrder(Dedup(xs), xs)
  {
    if xs != [] {
      var init, last := xs[..|xs| - 1], xs[|xs| - 1];
      assert xs == init + [last];
      var d := Dedup(init);
      DedupInFirstSeenOrder(init);
      forall x | x in d
        ensures FirstIndex(xs, x) == FirstIndex(init, x)
      {
        FirstIndexOfPrefix(init, [last], x);
      }
      if last !in d {
        assert FirstIndex(xs, last) == |xs| - 1;
        var r := d + [last];
        forall i, j | 0 <= i < j < |r|
          ensures FirstIndex(xs, r[i]) < FirstIndex(xs, r[j])
        {
          if j < |d| {
            assert r[i] == d[i] && r[j] == d[j];
          } else {
            assert r[i] == d[i];
          }
        }
      }
    }
  }

  lemma {:induction false} KeepVisibleInFirstSeenOrder(visible: set<NodeRef>, d: seq<NodeRef>, xs: seq<NodeRef>)
    requires InFirstSeenOrder(d, xs)
    ensures InFirstSeenOrder(KeepVisible(visible, d), xs)
  {
    if d != [] {
      var init, last := d[..|d| - 1], d[|d| - 1];
      assert forall i :: 0 <= i < |init| ==> init[i] == d[i];
      KeepVisibleInFirstSeenOrder(visible, init, xs);
      var k := KeepVisible(visible, init);
      if last in visible {
        var r := k + [last];
        forall i, j | 0 <= i < j < |r|
          ensures FirstIndex(xs, r[i]) < FirstIndex(xs, r[j])
        {
          if j < |k| {
            assert r[i] == k[i] && r[j] == k[j];
          } else {
            assert r[i] == k[i] && r[i] in init;
            var p :| 0 <= p < |init| && init[p] == r[i];
            assert d[p] == r[i] && d[|d| - 1] == r[j];
          }
        }
      }
    }
  }

  /** Filtering a sequence without repetitions by visibility leaves no repetitions. */
  lemma {:induction false} KeepVisibleNoDuplicates(visible: set<NodeRef>, xs: seq<NodeRef>)
    requires NoDuplicates(xs)
    ensures NoDuplicates(KeepVisible(visible, xs))
  {
    if xs != [] {
      var init, last := xs[..|xs| - 1], xs[|xs| - 1];
      KeepVisibleNoDuplicates(visible, init);
      assert last !in init;
    }
  }

  /**
   * What the scan promises: no node twice; exactly the visible nodes some selector matched;
   * in the order of first occurrence across the selectors taken in turn; at most as many
   * nodes as the selectors returned in all.
   */
  lemma {:induction false} ScanProperties(visible: set<NodeRef>, ms: seq<seq<NodeRef>>)
    ensures var s := Scan(visible, ms);
      && NoDuplicates(s)
      && (forall x :: x in s ==> x in visible && exists i :: 0 <= i < |ms| && x in ms[i])
      && (forall i, x :: 0 <= i < |ms| && x in ms[i] && x in visible ==> x in s)
      && InFirstSeenOrder(s, Flatten(ms))
      && |s| <= TotalLength(ms)
  {
    var f := Flatten(ms);
    KeepVisibleNoDuplicates(visible, Dedup(f));
    DedupInFirstSeenOrder(f);
    KeepVisibleInFirstSeenOrder(visible, Dedup(f), f);
  }

  lemma {:induction false} DedupSnoc(xs: seq<NodeRef>, x: NodeRef)
    ensures Dedup(xs + [x]) == if x in Dedup(xs) then Dedup(xs) else Dedup(xs) + [x]
  {
    assert (xs + [x])[..|xs|] == xs;
  }

  lemma {:induction false} FlattenPrefix(ms: seq<seq<NodeRef>>, i: nat)
    requires i < |ms|
    ensures Flatten(ms[..i + 1]) == Flatten(ms[..i]) + ms[i]
  {
    assert ms[..i + 1][..i] == ms[..i];
  }

  /** One selector's `forEach(n => nodes.add(n))`: append each node the set does not hold yet. */
  method AddMatches(seen: set<NodeRef>, order: seq<NodeRef>, ghost done: seq<NodeRef>, sel: seq<NodeRef>)
    returns (seen': set<NodeRef>, order': seq<NodeRef>)
    requires order == Dedup(done)
    requires forall x :: x in seen <==> x in order
    ensures order' == Dedup(done + sel)
    ensures forall x :: x in seen' <==> x in order'
  {
    seen', order' := seen, order;
    assert done + sel[..0] == done;
    var j := 0;
    while j < |sel|
      invariant 0 <= j <= |sel|
      invariant order' == Dedup(done + sel[..j])
      invariant forall x :: x in seen' <==> x in order'
    {
      var n := sel[j];
      assert done + sel[..j + 1] == (done + sel[..j]) + [n];
      DedupSnoc(done + sel[..j], n);
      if n !in seen' {
        seen' := seen' + {n};
        order' := order' + [n];
      }
      j := j + 1;
    }
    assert sel[..j] == sel;
  }

  /** The insertion-ordered set built by the nested `forEach` over the selector results. */
  method CollectMatches(ms: seq<seq<NodeRef>>) returns (order: seq<NodeRef>)
    ensures order == Dedup(Flatten(ms))
  {
    var seen: set<NodeRef> := {};
    order := [];
    var i := 0;
    while i < |ms|
      invariant 0 <= i <= |ms|
      invariant order == Dedup(Flatten(ms[..i]))
      invariant forall x :: x in seen <==> x in order
    {
      seen, order := AddMatches(seen, order, Flatten(ms[..i]), ms[i]);
      FlattenPrefix(ms, i);
      i := i + 1;
    }
    assert ms[..i] == ms;
  }

  /** `queryUserMessages`: gather the selector results into an insertion-ordered set, then filter by visibility. */
  method QueryUserMessages(page: Page) returns (scanned: seq<NodeRef>)
    requires page.Valid()
    ensures scanned == Scan(page.visible, page.matches)
    ensures NoDuplicates(scanned)
    ensures forall x :: x in scanned ==> x in page.visible && x in page.nodes
  {
    var order := CollectMatches(page.matches);
    scanned := [];
    var k := 0;
    while k < |order|
      invariant 0 <= k <= |order|
      invariant scanned == KeepVisible(page.visible, order[..k])
    {
      assert order[..k + 1] == order[..k] + [order[k]];
      if order[k] in page.visible {
        scanned := scanned + [order[k]];
      }
      k := k + 1;
    }
    assert order[..k] == order;
    ScanProperties(page.visible, page.matches);
    forall x | x in scanned
      ensures x in page.nodes
    {
      var p :| 0 <= p < |page.matches| && x in page.matches[p];
    }
  }
}
