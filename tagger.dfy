/**
 * `normalizeItem`: give a scanned element its anchor attribute and an id the first time it is
 * seen, then derive the outline item (id, label, message id) from it.
 *
 * Every scanned element matches one of the user-message selectors, and `closest` includes
 * the element itself, so the container searched for is always the scanned element.
 */
module Tagger {
  import opened Wrappers
  import opened Text
  import opened Labels
  import opened Dom
  import opened Scanner

  /** An outline entry: the element id to jump to, its label (`caption`), and the message id ("" when absent). */
  datatype Item = Item(id: string, caption: string, messageId: string)

  const AnchorPrefix: string := "cgpt-"
  const IdPrefix: string := "cgpt-anchor-"

  /** The anchor attribute value for the element at 0-based scan position `index`: the prefix and the 1-based number. */
  function AnchorValue(index: nat): (v: string)
    ensures |v| > |AnchorPrefix| && v[..|AnchorPrefix|] == AnchorPrefix
    ensures AllDigits(v[|AnchorPrefix|..]) && DigitsValue(v[|AnchorPrefix|..]) == index + 1
  {
    DecimalRoundTrip(index + 1);
    assert (AnchorPrefix + Decimal(index + 1))[|AnchorPrefix|..] == Decimal(index + 1);
    AnchorPrefix + Decimal(index + 1)
  }

  /** The id given to an element at scan position `index` that has none: the prefix and the 1-based number. */
  function DefaultId(index: nat): (v: string)
    ensures |v| > |IdPrefix| && v[..|IdPrefix|] == IdPrefix
    ensures AllDigits(v[|IdPrefix|..]) && DigitsValue(v[|IdPrefix|..]) == index + 1
  {
    DecimalRoundTrip(index + 1);
    assert (IdPrefix + Decimal(index + 1))[|IdPrefix|..] == Decimal(index + 1);
    IdPrefix + Decimal(index + 1)
  }

  /** Two scan positions never get the same anchor value, nor the same default id. */
  lemma {:induction false} FreshTagsDistinct(i: nat, j: nat)
    requires i != j
    ensures AnchorValue(i) != AnchorValue(j)
    ensures DefaultId(i) != DefaultId(j)
  {
    DecimalRoundTrip(i + 1);
    DecimalRoundTrip(j + 1);
    assert Decimal(i + 1) != Decimal(j + 1);
    assert AnchorValue(i)[|AnchorPrefix|..] == Decimal(i + 1);
    assert AnchorValue(j)[|AnchorPrefix|..] == Decimal(j + 1);
    assert DefaultId(i)[|IdPrefix|..] == Decimal(i + 1);
    assert DefaultId(j)[|IdPrefix|..] == Decimal(j + 1);
  }

  /** The element after tagging at scan position `index`. */
  function Tag(n: Node, index: nat): (t: Node)
    ensures t.anchor.Some?
    ensures n.anchor.Some? ==> t == n
    ensures n.anchor.None? ==> t.anchor == Some(AnchorValue(index))
    ensures n.anchor.None? ==> t.id == (if n.id != "" then n.id else DefaultId(index))
    ensures t.innerText == n.innerText && t.textContent == n.textContent && t.messageId == n.messageId
  {
    if n.anchor.Some? then n
    else n.(anchor := Some(AnchorValue(index)), id := if n.id != "" then n.id else DefaultId(index))
  }

  /**
   * The first default id at position `index` or later that no element holds. Default ids of
   * different positions differ, so each step past a taken one leaves fewer taken ids to pass.
   */
  function FreshDefaultId(taken: set<string>, index: nat): (k: nat)
    ensures index <= k && DefaultId(k) !in taken
    ensures DefaultId(index) !in taken ==> k == index
    decreases |taken|
  {
    if DefaultId(index) !in taken then index
    else
      var k := FreshDefaultId(taken - {DefaultId(index)}, index + 1);
      FreshTagsDistinct(k, index);
      k
  }

  /** The ids the elements of the page hold ("" for those without one). */
  function IdsOf(nodes: map<NodeRef, Node>): set<string> {
    set y | y in nodes :: nodes[y].id
  }

  /**
   * The tagging the fallback id is meant to have: an element without an id gets a default id
   * that no element of the document holds, so `getElementById` finds it and nothing else.
   */
  function TagInDocument(nodes: map<NodeRef, Node>, x: NodeRef, index: nat): (t: Node)
    requires x in nodes
    ensures t.anchor.Some?
    ensures nodes[x].anchor.Some? ==> t == nodes[x]
    ensures nodes[x].anchor.None? && nodes[x].id != "" ==> t == Tag(nodes[x], index)
    ensures nodes[x].anchor.None? && nodes[x].id == "" ==>
      t.id != "" && forall y :: y in nodes ==> nodes[y].id != t.id
    ensures t.innerText == nodes[x].innerText && t.textContent == nodes[x].textContent
    ensures t.messageId == nodes[x].messageId
  {
    var n := nodes[x];
    if n.anchor.Some? || n.id != "" then Tag(n, index)
    else
      var k := FreshDefaultId(IdsOf(nodes), index);
      assert forall y :: y in nodes ==> nodes[y].id in IdsOf(nodes);
      n.(anchor := Some(AnchorValue(index)), id := DefaultId(k))
  }

  /** Where the position's own default id is free, the corrected tagging is the tagging as written. */
  lemma {:induction false} TagInDocumentAgrees(nodes: map<NodeRef, Node>, x: NodeRef, index: nat)
    requires x in nodes
    requires DefaultId(index) !in IdsOf(nodes)
    ensures TagInDocument(nodes, x, index) == Tag(nodes[x], index)
  {
  }

  /** Tagging again, at any position, changes nothing: an element keeps its first tag. */
  lemma {:induction false} TagIdempotent(n: Node, i: nat, j: nat)
    ensures Tag(Tag(n, i), j) == Tag(n, i)
  {
  }

  /** `innerText || textContent || ''`: the first of the two texts that is not empty, else "". */
  function RawText(n: Node): (r: string)
    ensures r == "" <==> n.innerText == "" && n.textContent == ""
    ensures n.innerText != "" ==> r == n.innerText
    ensures n.innerText == "" ==> r == n.textContent
  {
    if n.innerText != "" then n.innerText else n.textContent
  }

  /** The outline entry for element `n` at scan position `index`, read after tagging it. */
  function Normalize(n: Node, index: nat): (item: Item)
    ensures item.caption != []
    ensures n.anchor.Some? ==> item.id == n.id
    ensures n.anchor.None? ==> item.id != ""
    ensures item.messageId == n.messageId.GetOr("")
    ensures item.caption == Label(RawText(n), index)
    ensures item.id == Tag(n, index).id
    ensures '\n' !in item.caption
  {
    var t := Tag(n, index);
    LabelSingleLine(RawText(t), index);
    Item(t.id, Label(RawText(t), index), t.messageId.GetOr(""))
  }

  /** The element records after tagging `refs[k]` at position k, one after the other. */
  function TagAll(nodes: map<NodeRef, Node>, refs: seq<NodeRef>): (r: map<NodeRef, Node>)
    requires forall x :: x in refs ==> x in nodes
    ensures r.Keys == nodes.Keys
  {
    if refs == [] then nodes
    else
      var init := TagAll(nodes, refs[..|refs| - 1]);
      var x := refs[|refs| - 1];
      init[x := Tag(init[x], |refs| - 1)]
  }

  /** After tagging, every scanned message carries an anchor, and no message's text or message id has changed. */
  lemma {:induction false} TagAllTagsScan(nodes: map<NodeRef, Node>, refs: seq<NodeRef>)
    requires forall x :: x in refs ==> x in nodes
    ensures forall x :: x in refs ==> TagAll(nodes, refs)[x].anchor.Some?
    ensures forall x :: x in nodes ==>
      var r := TagAll(nodes, refs);
      r[x].innerText == nodes[x].innerText && r[x].textContent == nodes[x].textContent &&
      r[x].messageId == nodes[x].messageId
  {
    if refs != [] {
      TagAllTagsScan(nodes, refs[..|refs| - 1]);
    }
  }

  /** The items `nodes.map(normalizeItem)` returns, each read from the records as tagged so far. */
  function NormalizeAll(nodes: map<NodeRef, Node>, refs: seq<NodeRef>): (items: seq<Item>)
    requires forall x :: x in refs ==> x in nodes
    ensures |items| == |refs|
    ensures forall k :: 0 <= k < |items| ==> '\n' !in items[k].caption
  {
    if refs == [] then []
    else
      var init := refs[..|refs| - 1];
      var x := refs[|refs| - 1];
      NormalizeAll(nodes, init) + [Normalize(TagAll(nodes, init)[x], |init|)]
  }

  lemma {:induction false} TagAllSnoc(nodes: map<NodeRef, Node>, refs: seq<NodeRef>, x: NodeRef)
    requires forall y :: y in refs ==> y in nodes
    requires x in nodes
    ensures TagAll(nodes, refs + [x]) == TagAll(nodes, refs)[x := Tag(TagAll(nodes, refs)[x], |refs|)]
  {
    assert (refs + [x])[..|refs|] == refs;
  }

  lemma {:induction false} NormalizeAllSnoc(nodes: map<NodeRef, Node>, refs: seq<NodeRef>, x: NodeRef)
    requires forall y :: y in refs ==> y in nodes
    requires x in nodes
    ensures NormalizeAll(nodes, refs + [x])
         == NormalizeAll(nodes, refs) + [Normalize(TagAll(nodes, refs)[x], |refs|)]
  {
    assert (refs + [x])[..|refs|] == refs;
  }

  /** Elements outside `refs` keep their records. */
  lemma {:induction false} TagAllElsewhere(nodes: map<NodeRef, Node>, refs: seq<NodeRef>, x: NodeRef)
    requires forall y :: y in refs ==> y in nodes
    requires x in nodes && x !in refs
    ensures TagAll(nodes, refs)[x] == nodes[x]
  {
    if refs != [] {
      var init := refs[..|refs| - 1];
      assert forall y :: y in init ==> y in refs;
      TagAllElsewhere(nodes, init, x);
    }
  }

  /** For elements without repetitions (as the scan yields), element `refs[k]` ends up tagged as position k. */
  lemma {:induction false} TagAllAt(nodes: map<NodeRef, Node>, refs: seq<NodeRef>, k: nat)
    requires forall y :: y in refs ==> y in nodes
    requires NoDuplicates(refs)
    requires k < |refs|
    ensures TagAll(nodes, refs)[refs[k]] == Tag(nodes[refs[k]], k)
  {
    var init, last := refs[..|refs| - 1], refs[|refs| - 1];
    DropLast(refs);
    if k == |refs| - 1 {
      TagAllElsewhere(nodes, init, last);
    } else {
      TagAllAt(nodes, init, k);
    }
  }


  /** For elements without repetitions, item k is read from the untagged record of `refs[k]`. */
  lemma {:induction false} NormalizeAllAt(nodes: map<NodeRef, Node>, refs: seq<NodeRef>, k: nat)
    requires forall y :: y in refs ==> y in nodes
    requires NoDuplicates(refs)
    requires k < |refs|
    ensures NormalizeAll(nodes, refs)[k] == Normalize(nodes[refs[k]], k)
  {
    var init, last := refs[..|refs| - 1], refs[|refs| - 1];
    DropLast(refs);
    var head := NormalizeAll(nodes, init);
    assert NormalizeAll(nodes, refs) == head + [Normalize(TagAll(nodes, init)[last], |init|)];
    if k == |refs| - 1 {
      TagAllElsewhere(nodes, init, last);
    } else {
      NormalizeAllAt(nodes, init, k);
    }
  }

  /** Dropping the last element of a scan without repetitions. */
  lemma DropLast(refs: seq<NodeRef>)
    requires refs != [] && NoDuplicates(refs)
    ensures var init := refs[..|refs| - 1];
      && NoDuplicates(init) && refs[|refs| - 1] !in init
      && (forall y :: y in init ==> y in refs)
      && (forall k :: 0 <= k < |init| ==> init[k] == refs[k])
  {
  }

  /**
   * As written, a default id is unique only within one scan. Take two untagged messages
   * without ids, where only `a` is visible at first: the first scan gives `a` the default id
   * of position 0. Once `x` is visible too and comes first, the next scan puts `x` at
   * position 0 and gives it the same id.
   */
  lemma {:induction false} DefaultIdRepeatsAcrossScans(nodes: map<NodeRef, Node>, x: NodeRef, a: NodeRef)
    requires x in nodes && a in nodes && x != a
    requires nodes[x].anchor.None? && nodes[x].id == ""
    requires nodes[a].anchor.None? && nodes[a].id == ""
    ensures var first := TagAll(nodes, [a]);
      && TagAll(first, [x, a])[x].id == DefaultId(0)
      && NormalizeAll(first, [x, a])[0].id == DefaultId(0)
      && NormalizeAll(first, [x, a])[1].id == DefaultId(0)
  {
    var first := TagAll(nodes, [a]);
    TagAllAt(nodes, [a], 0);
    TagAllElsewhere(nodes, [a], x);
    assert NoDuplicates([x, a]);
    TagAllAt(first, [x, a], 0);
    NormalizeAllAt(first, [x, a], 0);
    NormalizeAllAt(first, [x, a], 1);
  }

  /** Tagging a scan's elements twice in a row leaves the records as the first pass left them. */
  lemma {:induction false} TagAllIdempotent(nodes: map<NodeRef, Node>, refs: seq<NodeRef>)
    requires forall x :: x in refs ==> x in nodes
    requires NoDuplicates(refs)
    ensures TagAll(TagAll(nodes, refs), refs) == TagAll(nodes, refs)
  {
    var once := TagAll(nodes, refs);
    forall x | x in once
      ensures TagAll(once, refs)[x] == once[x]
    {
      if x in refs {
        var k :| 0 <= k < |refs| && refs[k] == x;
        TagAllAt(nodes, refs, k);
        TagAllAt(once, refs, k);
      } else {
        TagAllElsewhere(once, refs, x);
      }
    }
  }

  /** One step of the tagging loop: the records and items after position k, from those before it. */
  lemma {:induction false} TagStep(nodes: map<NodeRef, Node>, refs: seq<NodeRef>, k: nat)
    requires forall y :: y in refs ==> y in nodes
    requires k < |refs|
    ensures refs[k] in TagAll(nodes, refs[..k])
    ensures TagAll(nodes, refs[..k + 1])
         == TagAll(nodes, refs[..k])[refs[k] := Tag(TagAll(nodes, refs[..k])[refs[k]], k)]
    ensures NormalizeAll(nodes, refs[..k + 1])
         == NormalizeAll(nodes, refs[..k]) + [Normalize(TagAll(nodes, refs[..k])[refs[k]], k)]
  {
    var done := refs[..k];
    assert refs[..k + 1] == done + [refs[k]];
    assert forall y :: y in done ==> y in refs;
    TagAllSnoc(nodes, done, refs[k]);
    NormalizeAllSnoc(nodes, done, refs[k]);
  }

  /** The body of the `map` in `rebuild`: tag each scanned element in place and collect its item. */
  method NormalizeItems(page: Page, refs: seq<NodeRef>) returns (items: seq<Item>)
    requires page.Valid()
    requires forall x :: x in refs ==> x in page.nodes
    modifies page`nodes
    ensures page.Valid()
    ensures page.nodes == TagAll(old(page.nodes), refs)
    ensures items == NormalizeAll(old(page.nodes), refs)
  {
    ghost var before := page.nodes;
    items := [];
    var k := 0;
    while k < |refs|
      invariant 0 <= k <= |refs|
      invariant page.nodes == TagAll(before, refs[..k])
      invariant page.nodes.Keys == before.Keys
      invariant items == NormalizeAll(before, refs[..k])
    {
      var x := refs[k];
      TagStep(before, refs, k);
      items := items + [Normalize(page.nodes[x], k)];
      page.nodes := page.nodes[x := Tag(page.nodes[x], k)];
      k := k + 1;
    }
    assert refs[..k] == refs;
  }
}
