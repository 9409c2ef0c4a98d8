/**
 The intrusive doubly linked FIFO lists: pages linked through their own `next` and `prev` fields,
 with a back pointer to the list they are on. Every operation refines its counterpart on sequences.
 */
module Fifo {
  import opened Basics

  class Page {
    var next: Page?
    var prev: Page?
    var list: FifoList?

    constructor ()
      ensures next == null && prev == null && list == null
    {
      next, prev, list := null, null, null;
    }
  }

  class FifoList {
    var first: Page?
    var last: Page?
    var numentries: nat
    /** The pages on the list, from `first` to `last`. */
    ghost var pages: seq<Page>

    ghost function Neighbour(i: int): Page?
      reads this
    {
      if 0 <= i < |pages| then pages[i] else null
    }

    ghost predicate LinkOk(i: int)
      reads this, pages
    {
      0 <= i < |pages| ==>
        && pages[i].list == this
        && pages[i].prev == Neighbour(i - 1)
        && pages[i].next == Neighbour(i + 1)
    }

    ghost predicate Valid()
      reads this, pages
    {
      && NoDup(pages)
      && numentries == |pages|
      && first == Neighbour(0)
      && last == Neighbour(|pages| - 1)
      && (forall i :: LinkOk(i))
    }

    constructor ()
      ensures Valid() && pages == []
    {
      first, last, numentries, pages := null, null, 0, [];
    }

    /** `enqueue_fifo` */
    method Enqueue(entry: Page)
      requires Valid() && entry.list == null && entry.prev == null
      modifies this, entry, first
      ensures Valid() && pages == [entry] + old(pages)
      ensures entry.list == this
    {
      OnThisList();
      assert entry !in pages;
      assert entry.prev == null;
      entry.next := first;
      if first != null {
        assert LinkOk(0);
        assert first.prev == null;
        first.prev := entry;
      } else {
        assert last == null;
        assert numentries == 0;
        last := entry;
      }
      first := entry;
      entry.list := this;
      numentries := numentries + 1;
      pages := [entry] + pages;
      ConsFacts(entry, old(pages));
      forall i ensures LinkOk(i) {
        assert old(LinkOk(i - 1));
        assert 0 < i < |pages| ==> pages[i] == old(pages)[i - 1];
      }
    }

    /** `dequeue_fifo`: the page at `last`, or NULL. */
    method Dequeue() returns (ret: Page?)
      requires Valid()
      modifies this, last, if last == null then null else last.prev
      ensures Valid()
      ensures old(pages) == [] ==> ret == null && pages == []
      ensures old(pages) != [] ==>
                && ret == old(pages)[|old(pages)| - 1] && pages == old(pages)[..|old(pages)| - 1]
                && ret.next == null && ret.prev == null && ret.list == null
    {
      ret := last;
      if ret == null { return; }
      ghost var n := |pages| - 1;
      assert LinkOk(n);
      last := ret.prev;
      if last != null {
        last.next := null;
      } else {
        first := null;
      }
      ret.prev, ret.next := null, null;
      ret.list := null;
      assert numentries > 0;
      numentries := numentries - 1;
      pages := pages[..n];
      forall i ensures LinkOk(i) {
        assert old(LinkOk(i));
      }
    }

    lemma OnThisList()
      requires Valid()
      ensures forall p :: p in pages ==> p.list == this
    {
      forall p | p in pages ensures p.list == this { assert LinkOk(IndexOf(pages, p)); }
    }

    /** The pointer surgery of `page_list_remove_page`. */
    method Unlink(page: Page)
      requires page.next != page && page.prev != page && (page.next == null || page.next != page.prev)
      modifies this, page, page.prev, page.next
      ensures first == (if old(first) == page then old(page.next) else old(first))
      ensures last == (if old(last) == page then old(page.prev) else old(last))
      ensures numentries == old(numentries) && pages == old(pages)
      ensures page.next == null && page.prev == null && page.list == null
      ensures var n := old(page.next); n != null ==> n.prev == old(page.prev) && n.next == old(n.next) && n.list == old(n.list)
      ensures var p := old(page.prev); p != null ==> p.next == old(page.next) && p.prev == old(p.prev) && p.list == old(p.list)
    {
      if first == page {
        first := page.next;
      }
      if last == page {
        last := page.prev;
      }
      if page.next != null {
        page.next.prev := page.prev;
      }
      if page.prev != null {
        page.prev.next := page.next;
      }
      page.next := null;
      page.prev := null;
      page.list := null;
    }

    /** Removal of the page at position k. */
    method RemoveAt(page: Page, ghost k: int)
      requires Valid() && 0 <= k < |pages| && pages[k] == page
      modifies this, page, page.prev, page.next
      ensures Valid() && pages == old(pages)[..k] + old(pages)[k + 1..]
      ensures page.next == null && page.prev == null && page.list == null
    {
      ghost var ps := pages;
      assert LinkOk(k) && LinkOk(k - 1) && LinkOk(k + 1);
      Unlink(page);
      assert numentries > 0;
      numentries := numentries - 1;
      pages := pages[..k] + pages[k + 1..];
      forall i ensures LinkOk(i) {
        if 0 <= i < |pages| {
          var j := if i < k then i else i + 1;
          assert pages[i] == ps[j] && old(LinkOk(j));
        }
      }
    }

    /** `page_list_remove_page`, of a page on this list or on an empty list. */
    method Remove(page: Page)
      requires Valid() && (pages == [] || page in pages)
      modifies this, page, page.prev, page.next
      ensures Valid()
      ensures old(pages) == [] ==> pages == [] && page.list == old(page.list)
      ensures old(pages) != [] ==>
                pages == Without(old(pages), page) && page.next == null && page.prev == null && page.list == null
    {
      if first == null {
        assert last == null;
        assert numentries == 0;
        return;
      }
      WithoutSlices(pages, page);
      RemoveAt(page, IndexOf(pages, page));
    }

    /** `next_page`: the page after `page` on the way from `last` to `first`; from NULL, the last page. */
    method NextPage(page: Page?) returns (next: Page?)
      requires Valid() && (page != null ==> page in pages)
      ensures page == null ==> next == Neighbour(|pages| - 1)
      ensures page != null ==> next == Neighbour(IndexOf(pages, page) - 1)
    {
      if page == null {
        next := last;
      } else {
        assert LinkOk(IndexOf(pages, page));
        next := page.prev;
        assert page.list == this;
      }
    }
  }

  /** A page goes from one list to another, as in `make_hot` and the migration loop; neither list breaks the other. */
  method Relist(from: FifoList, to: FifoList, page: Page)
    requires from != to && from.Valid() && to.Valid() && page in from.pages
    modifies from, to, from.pages, to.pages
    ensures from.Valid() && from.pages == Without(old(from.pages), page)
    ensures to.Valid() && to.pages == [page] + old(to.pages)
    ensures page.list == to
  {
    from.OnThisList();
    to.OnThisList();
    assert from.LinkOk(IndexOf(from.pages, page));
    WithoutFacts(from.pages, page);
    ghost var rest := Without(from.pages, page);
    from.Remove(page);
    assert to.pages == old(to.pages) && forall i {:trigger to.LinkOk(i)} :: to.LinkOk(i) == old(to.LinkOk(i));
    assert to.first != null ==> to.first in to.pages;
    assert page !in from.pages;
    label removed:
    to.Enqueue(page);
    assert forall i {:trigger from.LinkOk(i)} :: from.LinkOk(i) == old@removed(from.LinkOk(i));
  }
}
