/**
 The first book with an id that a search, live or on frozen links, will meet, and how changes
 of the list move it.
 */
module RcuMeets {
  import opened Common
  import opened RcuModel
  import opened RcuInvariant
  import opened RcuSteps
  import opened RcuBound

  // ---------- what a search will meet ----------

  // Following the links from p, over fewer than m nodes, the first node with the id is f, or
  // there is none and f is End.
  ghost predicate Meets(heap: Heap, p: Ptr, m: nat, f: Ptr, id: int)
    decreases m
  {
    if p == End then f == End
    else && p.at in heap && m > 0
         && if heap[p.at].book.id == id then f == p else Meets(heap, heap[p.at].next, m - 1, f, id)
  }

  // From position i on, the first node of the order that has the id is f.
  ghost predicate FirstFrom(heap: Heap, order: seq<Addr>, i: nat, f: Ptr, id: int) {
    match f
    case End => forall j :: i <= j < |order| ==> order[j] in heap && heap[order[j]].book.id != id
    case To(a) =>
      exists j :: && i <= j < |order| && order[j] == a && a in heap && heap[a].book.id == id
                  && forall l :: i <= l < j ==> order[l] in heap && heap[order[l]].book.id != id
  }

  lemma {:induction false} MeetsMatch(heap: Heap, p: Ptr, m: nat, f: Ptr, id: int)
    requires Meets(heap, p, m, f, id)
    ensures f.To? ==> f.at in heap && heap[f.at].book.id == id
    decreases m
  {
    if p.To? && heap[p.at].book.id != id {
      MeetsMatch(heap, heap[p.at].next, m - 1, f, id);
    }
  }

  lemma {:induction false} MeetsSame(heap: Heap, heap': Heap, p: Ptr, m: nat, f: Ptr, id: int)
    requires PublishedLinks(heap) && SameLinks(heap, heap') && Meets(heap, p, m, f, id) && PublishedAt(heap, p)
    ensures Meets(heap', p, m, f, id)
    decreases m
  {
    if p.To? && heap[p.at].book.id != id {
      MeetsSame(heap, heap', heap[p.at].next, m - 1, f, id);
    }
  }

  // A search on the list meets the first match that is left of it.
  lemma {:induction false} ListMeets(heap: Heap, order: seq<Addr>, i: nat, id: int) returns (f: Ptr)
    requires Linking(heap, order) && i <= |order|
    ensures Meets(heap, PtrAt(order, i), |order| - i, f, id) && FirstFrom(heap, order, i, f, id)
    decreases |order| - i
  {
    if i == |order| {
      f := End;
    } else if heap[order[i]].book.id == id {
      f := To(order[i]);
    } else {
      assert order[i] in heap;
      f := ListMeets(heap, order, i + 1, id);
    }
  }

  // A replacement of a match on the way puts its copy in its place; others change nothing.
  lemma {:induction false} MeetsReplaced(heap: Heap, heap': Heap, order: seq<Addr>, k: nat, n: Addr, p: Ptr, m: nat, f: Ptr, id: int)
      returns (f': Ptr)
    requires PublishedLinks(heap) && Linking(heap, order) && k < |order| && Spliced(heap, heap', order, k, To(n))
    requires order[k] in heap && n in heap'
    requires heap'[n].next == heap[order[k]].next && heap'[n].book.id == heap[order[k]].book.id
    requires Meets(heap, p, m, f, id) && PublishedAt(heap, p)
    ensures Meets(heap', p, m, f', id)
    ensures f' == f || (f == To(order[k]) && f' == To(n))
    decreases m
  {
    f' := f;
    if p.To? && heap[p.at].book.id != id {
      if k > 0 && p.at == order[k - 1] {
        assert order[k - 1] in heap;
        assert heap[p.at].next == To(order[k]);
        if heap[order[k]].book.id == id {
          f' := To(n);
        } else {
          f' := MeetsReplaced(heap, heap', order, k, n, heap[order[k]].next, m - 2, f, id);
        }
        assert Meets(heap', To(n), m - 1, f', id);
      } else {
        f' := MeetsReplaced(heap, heap', order, k, n, heap[p.at].next, m - 1, f, id);
      }
    }
  }

  // A deletion of a match on the way leaves the next one on the list; others change nothing.
  lemma {:induction false} MeetsUnlinked(heap: Heap, heap': Heap, order: seq<Addr>, k: nat, p: Ptr, m: nat, f: Ptr, id: int)
      returns (m': nat, f': Ptr)
    requires PublishedLinks(heap) && Linking(heap, order) && k < |order|
    requires order[k] in heap && Spliced(heap, heap', order, k, heap[order[k]].next) && Linking(heap', Without(order, k))
    requires Meets(heap, p, m, f, id) && PublishedAt(heap, p)
    ensures Meets(heap', p, m', f', id)
    ensures f' == f || (f == To(order[k]) && FirstFrom(heap', Without(order, k), k, f', id))
    decreases m
  {
    m', f' := m, f;
    if p.To? && heap[p.at].book.id != id {
      if k > 0 && p.at == order[k - 1] {
        assert order[k - 1] in heap;
        assert heap[p.at].next == To(order[k]);
        if heap[order[k]].book.id == id {
          WithoutAt(order, k);
          assert heap[order[k]].next == PtrAt(order, k + 1) == PtrAt(Without(order, k), k);
          f' := ListMeets(heap', Without(order, k), k, id);
          m' := |order| - k;
        } else {
          m', f' := MeetsUnlinked(heap, heap', order, k, heap[order[k]].next, m - 2, f, id);
          m' := m' + 1;
        }
      } else {
        m', f' := MeetsUnlinked(heap, heap', order, k, heap[p.at].next, m - 1, f, id);
        m' := m' + 1;
      }
    }
  }
}
