/**
 The book list as a single task sees it: the operations refine a newest-first sequence of
 books with first-match lookup.
 */
module BookList {
  import opened Common
  import opened RcuModel

  // ---------- the abstract sequence ----------

  // The position of the first book with the id, or the length of the sequence.
  function First(books: seq<Book>, id: int): (i: nat)
    ensures i <= |books|
    ensures i < |books| ==> books[i].id == id
    ensures forall j :: 0 <= j < i ==> books[j].id != id
  {
    if books == [] then 0
    else if books[0].id == id then 0
    else 1 + First(books[1..], id)
  }

  lemma FirstIs(books: seq<Book>, id: int, i: nat)
    requires i <= |books| && (i < |books| ==> books[i].id == id)
    requires forall j :: 0 <= j < i ==> books[j].id != id
    ensures First(books, id) == i
  {
    var f := First(books, id);
  }

  // borrow_book (want) and return_book (!want) apply to the first book with the id.
  predicate CanUpdate(books: seq<Book>, id: int, want: bool) {
    var i := First(books, id);
    i < |books| && books[i].borrowed != want
  }

  function Updated(books: seq<Book>, id: int, want: bool): seq<Book> {
    var i := First(books, id);
    if CanUpdate(books, id, want) then books[i := books[i].(borrowed := want)] else books
  }

  function Deleted(books: seq<Book>, id: int): seq<Book> {
    var i := First(books, id);
    if i < |books| then books[..i] + books[i + 1..] else books
  }

  // A call that succeeds enables its opposite, which restores the sequence exactly.
  lemma UpdateUndone(books: seq<Book>, id: int, want: bool)
    requires CanUpdate(books, id, want)
    ensures !CanUpdate(Updated(books, id, want), id, want)
    ensures CanUpdate(Updated(books, id, want), id, !want)
    ensures Updated(Updated(books, id, want), id, !want) == books
  {
    var i := First(books, id);
    FirstIs(Updated(books, id, want), id, i);
  }

  // A change of the flag of a book with the id is the update if and only if that book is the
  // first with the id.
  lemma UpdatedAt(books: seq<Book>, k: nat, id: int, want: bool)
    requires k < |books| && books[k].id == id && books[k].borrowed != want
    ensures Updated(books, id, want) == books[k := books[k].(borrowed := want)] <==> First(books, id) == k
    ensures First(books, id) == k ==> CanUpdate(books, id, want)
  {
    var changed := books[k := books[k].(borrowed := want)];
    assert changed[k].borrowed == want;
    if First(books, id) != k {
      assert Updated(books, id, want)[k] == books[k];
    }
  }

  // Deleting right after adding the same id restores the sequence, duplicates or not.
  lemma AddUndone(books: seq<Book>, book: Book)
    ensures Deleted([book] + books, book.id) == books
  {
    FirstIs([book] + books, book.id, 0);
    assert ([book] + books)[1..] == books;
  }

  // Operations on one id leave what is found for every other id as it was.
  lemma OthersUntouched(books: seq<Book>, id: int, other: int, want: bool)
    requires id != other
    ensures First(Updated(books, id, want), other) == First(books, other)
    ensures var i, i' := First(books, other), First(Deleted(books, id), other);
            && (i < |books| <==> i' < |Deleted(books, id)|)
            && (i < |books| ==> Deleted(books, id)[i'] == books[i] == Updated(books, id, want)[i])
  {
    hide First;
    var k, i := First(books, id), First(books, other);
    FirstIs(Updated(books, id, want), other, i);
    if k < |books| {
      OthersStay(books, id, other);
    }
  }

  // The first book with another id is still the first one after a deletion.
  lemma OthersStay(books: seq<Book>, id: int, other: int)
    requires id != other && First(books, id) < |books|
    ensures var k, i := First(books, id), First(books, other);
            First(Deleted(books, id), other) == if i < k then i else i - 1
  {
    hide First;
    var k, i, rest := First(books, id), First(books, other), Deleted(books, id);
    assert forall j :: 0 <= j < |rest| ==> rest[j] == books[if j < k then j else j + 1];
    FirstIs(rest, other, if i < k then i else i - 1);
  }

  // What strncpy leaves of a string in a 64-byte field.
  function Field(s: string): (r: string)
    ensures r <= s && |r| <= 64 && (|r| < 64 ==> r == s)
  {
    if |s| <= 64 then s else s[..64]
  }

  // ---------- the linked list ----------

  // struct book: null stands for a link to the list head.
  class BookNode {
    var book: Book
    var next: BookNode?
    var prev: BookNode?

    constructor (book: Book)
      ensures this.book == book && next == null && prev == null
    {
      this.book := book;
      next, prev := null, null;
    }
  }

  class Books {
    var head: BookNode?
    // Nodes handed to call_rcu whose callback has not run.
    var pending: set<BookNode>
    ghost var nodes: seq<BookNode>
    ghost var contents: seq<Book>
    ghost var freed: set<BookNode>
    ghost var everAllocated: set<BookNode>

    ghost predicate Linked()
      reads this, nodes
    {
      && (forall i, j :: 0 <= i < j < |nodes| ==> nodes[i] != nodes[j])
      && head == (if |nodes| > 0 then nodes[0] else null)
      && (forall i {:trigger nodes[i].next} :: 0 <= i < |nodes| ==>
            nodes[i].next == if i + 1 < |nodes| then nodes[i + 1] else null)
      && (forall i {:trigger nodes[i].prev} :: 0 <= i < |nodes| ==>
            nodes[i].prev == if i > 0 then nodes[i - 1] else null)
    }

    // Allocated nodes split into those on the list, those waiting for a callback, and those freed.
    ghost predicate Conserved()
      reads this
    {
      && everAllocated == Set(nodes) + pending + freed
      && Set(nodes) !! pending !! freed
    }

    ghost predicate Valid()
      reads this, nodes
    {
      && Linked() && Conserved()
      && |contents| == |nodes| && forall i :: 0 <= i < |nodes| ==> nodes[i].book == contents[i]
    }

    static ghost function Set(nodes: seq<BookNode>): set<BookNode> {
      set n | n in nodes
    }

    constructor ()
      ensures Valid() && contents == [] && pending == {} && freed == {} && everAllocated == {}
    {
      head, pending := null, {};
      nodes, contents, freed, everAllocated := [], [], {}, {};
    }

    // The traversal shared by all operations: stop at the first node with the id.
    method Find(id: int) returns (b: BookNode?)
      requires Valid()
      ensures b == if First(contents, id) < |contents| then nodes[First(contents, id)] else null
    {
      b := head;
      ghost var i := 0;
      while b != null && b.book.id != id
        invariant 0 <= i <= |nodes|
        invariant b == if i < |nodes| then nodes[i] else null
        invariant forall j :: 0 <= j < i ==> contents[j].id != id
        decreases |nodes| - i
      {
        b := b.next;
        i := i + 1;
      }
      FirstIs(contents, id, i);
    }

    method ListAddRcu(n: BookNode)
      requires Valid() && n !in everAllocated
      modifies this, n, nodes
      ensures Valid()
      ensures nodes == [n] + old(nodes) && contents == [n.book] + old(contents) && n.book == old(n.book)
      ensures everAllocated == old(everAllocated) + {n} && pending == old(pending) && freed == old(freed)
    {
      n.next := head;
      n.prev := null;
      if head != null {
        head.prev := n;
      }
      head := n;
      nodes := [n] + nodes;
      contents := [n.book] + contents;
      everAllocated := everAllocated + {n};
      assert forall i :: 0 < i < |nodes| ==> nodes[i] == old(nodes)[i - 1];
    }

    // The contract of list_replace_rcu: the old node is on the list, the new one is not.
    method ListReplaceRcu(oldB: BookNode, newB: BookNode, ghost i: nat)
      requires Linked() && i < |nodes| && nodes[i] == oldB && newB !in nodes
      modifies this`head, this`nodes, newB, nodes
      ensures Linked() && nodes == old(nodes)[i := newB]
      ensures forall n :: n in old(nodes) || n == newB ==> n.book == old(n.book)
    {
      newB.next := oldB.next;
      newB.prev := oldB.prev;
      if oldB.prev == null {
        head := newB;
      } else {
        oldB.prev.next := newB;
      }
      if newB.next != null {
        newB.next.prev := newB;
      }
      nodes := nodes[i := newB];
    }

    method ListDelRcu(b: BookNode, ghost i: nat)
      requires Linked() && i < |nodes| && nodes[i] == b
      modifies this`head, this`nodes, nodes
      ensures Linked() && nodes == old(nodes)[..i] + old(nodes)[i + 1..]
      ensures forall n :: n in old(nodes) ==> n.book == old(n.book)
    {
      if b.next != null {
        b.next.prev := b.prev;
      }
      if b.prev == null {
        head := b.next;
      } else {
        b.prev.next := b.next;
      }
      nodes := nodes[..i] + nodes[i + 1..];
      assert forall j :: 0 <= j < i ==> nodes[j] == old(nodes)[j];
      assert forall j :: i <= j < |nodes| ==> nodes[j] == old(nodes)[j + 1];
    }

    // call_rcu, or synchronize_rcu and kfree: with no reader about, the wait is over at once.
    method Reclaim(b: BookNode, async: bool)
      modifies this`pending, this`freed
      ensures pending == old(pending) + (if async then {b} else {})
      ensures freed == old(freed) + (if async then {} else {b})
    {
      if async {
        pending := pending + {b};
      } else {
        freed := freed + {b};
      }
    }

    // book_reclaim_callback, for all callbacks that are due.
    method RunCallbacks()
      requires Valid()
      modifies this`pending, this`freed
      ensures Valid() && pending == {} && freed == old(freed) + old(pending)
    {
      freed := freed + pending;
      pending := {};
    }

    // memory says whether kzalloc succeeds.
    method AddBook(id: int, name: string, author: string, memory: bool)
      requires Valid()
      modifies this, nodes
      ensures Valid() && pending == old(pending) && freed == old(freed)
      ensures contents == (if memory then [Book(id, Field(name), Field(author), false)] else []) + old(contents)
      ensures if memory then |nodes| > 0 && nodes == [nodes[0]] + old(nodes) && fresh(nodes[0]) else nodes == old(nodes)
    {
      if !memory {
        assert [] + contents == contents;
        return;
      }
      var n := new BookNode(Book(id, Field(name), Field(author), false));
      assert n !in everAllocated;
      ListAddRcu(n);
    }

    // borrow_book when want, return_book when !want: copy the node, change the copy, and put
    // it in the place of the old one.
    method UpdateBook(id: int, want: bool, async: bool, memory: bool) returns (r: int)
      requires Valid()
      modifies this, nodes
      ensures Valid()
      ensures r == if CanUpdate(old(contents), id, want) && memory then 0 else -1
      ensures contents == if r == 0 then Updated(old(contents), id, want) else old(contents)
      ensures r == -1 ==> nodes == old(nodes) && pending == old(pending) && freed == old(freed)
      ensures r == 0 ==>
                var i := First(old(contents), id);
                && i < |old(nodes)| == |nodes| && nodes == old(nodes)[i := nodes[i]] && fresh(nodes[i])
                && pending == old(pending) + (if async then {old(nodes)[i]} else {})
                && freed == old(freed) + (if async then {} else {old(nodes)[i]})
    {
      var oldB := Find(id);
      if oldB == null || oldB.book.borrowed == want || !memory {
        return -1;
      }
      CopyInPlace(oldB, want, First(contents, id));
      Reclaim(oldB, async);
      r := 0;
    }

    // Put a changed copy of the node at position i in its place.
    method CopyInPlace(oldB: BookNode, want: bool, ghost i: nat)
      requires Valid() && i < |nodes| && nodes[i] == oldB
      modifies this`head, this`nodes, this`contents, this`everAllocated, nodes
      ensures Linked() && |nodes| == |old(nodes)| && nodes == old(nodes)[i := nodes[i]] && fresh(nodes[i])
      ensures contents == old(contents)[i := old(contents)[i].(borrowed := want)]
      ensures |contents| == |nodes| && forall j :: 0 <= j < |nodes| ==> nodes[j].book == contents[j]
      ensures everAllocated == old(everAllocated) + {nodes[i]}
      ensures Set(nodes) == Set(old(nodes)) - {oldB} + {nodes[i]}
    {
      var newB := new BookNode(oldB.book);
      newB.book := newB.book.(borrowed := want);
      ListReplaceRcu(oldB, newB, i);
      contents := contents[i := newB.book];
      SetReplaced(old(nodes), i, newB);
      everAllocated := everAllocated + {newB};
    }

    static lemma SetReplaced(nodes: seq<BookNode>, i: nat, n: BookNode)
      requires i < |nodes| && n !in nodes
      requires forall j, k :: 0 <= j < k < |nodes| ==> nodes[j] != nodes[k]
      ensures Set(nodes[i := n]) == Set(nodes) - {nodes[i]} + {n}
    {
      forall m | m in nodes && m != nodes[i] ensures m in nodes[i := n] {
        var j :| 0 <= j < |nodes| && nodes[j] == m;
        assert nodes[i := n][j] == m;
      }
      assert nodes[i := n][i] == n;
    }

    static lemma SetRemoved(nodes: seq<BookNode>, i: nat)
      requires i < |nodes|
      requires forall j, k :: 0 <= j < k < |nodes| ==> nodes[j] != nodes[k]
      ensures Set(nodes[..i] + nodes[i + 1..]) == Set(nodes) - {nodes[i]}
    {
      var rest := nodes[..i] + nodes[i + 1..];
      assert forall j :: 0 <= j < |rest| ==> rest[j] == nodes[if j < i then j else j + 1];
      forall m | m in nodes && m != nodes[i] ensures m in rest {
        var j :| 0 <= j < |nodes| && nodes[j] == m;
        assert rest[if j < i then j else j - 1] == m;
      }
    }

    method DeleteBook(id: int, async: bool)
      requires Valid()
      modifies this, nodes
      ensures Valid() && contents == Deleted(old(contents), id)
      ensures everAllocated == old(everAllocated)
      ensures var i := First(old(contents), id);
              if i == |old(contents)| then nodes == old(nodes) && pending == old(pending) && freed == old(freed)
              else && nodes == old(nodes)[..i] + old(nodes)[i + 1..]
                   && pending == old(pending) + (if async then {old(nodes)[i]} else {})
                   && freed == old(freed) + (if async then {} else {old(nodes)[i]})
    {
      hide First;
      var b := Find(id);
      if b != null {
        TakeOut(b, First(contents, id));
        Reclaim(b, async);
      }
    }

    // Take the node at position i off the list.
    method TakeOut(b: BookNode, ghost i: nat)
      requires Valid() && i < |nodes| && nodes[i] == b
      modifies this`head, this`nodes, this`contents, nodes
      ensures Linked() && nodes == old(nodes)[..i] + old(nodes)[i + 1..]
      ensures contents == old(contents)[..i] + old(contents)[i + 1..]
      ensures |contents| == |nodes| && forall j :: 0 <= j < |nodes| ==> nodes[j].book == contents[j]
      ensures Set(nodes) == Set(old(nodes)) - {b}
    {
      SetRemoved(nodes, i);
      ListDelRcu(b, i);
      contents := contents[..i] + contents[i + 1..];
      hide Linked;
      assert forall j :: 0 <= j < |nodes| ==> nodes[j] == old(nodes)[if j < i then j else j + 1];
    }

    // 1 or 0 for the first book with the id, -1 when there is none.
    method IsBorrowedBook(id: int) returns (r: int)
      requires Valid()
      ensures r == -1 <==> forall i :: 0 <= i < |contents| ==> contents[i].id != id
      ensures r != -1 ==> r == if contents[First(contents, id)].borrowed then 1 else 0
    {
      var b := Find(id);
      r := if b == null then -1 else if b.book.borrowed then 1 else 0;
    }

    method PrintBook(id: int) returns (shown: Option<Book>)
      requires Valid()
      ensures shown == None <==> forall i :: 0 <= i < |contents| ==> contents[i].id != id
      ensures shown.Some? ==> shown.value == contents[First(contents, id)]
    {
      var b := Find(id);
      shown := if b == null then None else Some(b.book);
    }
  }

  // A borrow and a return of the same id restore the contents, on a different node.
  method BorrowThenReturn(books: Books, id: int, async: bool)
    requires books.Valid() && CanUpdate(books.contents, id, true)
    modifies books, books.nodes
    ensures books.Valid() && books.contents == old(books.contents)
    ensures var i := First(old(books.contents), id);
            && i < |old(books.nodes)| == |books.nodes| && books.nodes[i] != old(books.nodes)[i]
            && forall j :: 0 <= j < |books.nodes| && j != i ==> books.nodes[j] == old(books.nodes)[j]
  {
    UpdateUndone(books.contents, id, true);
    ghost var i := First(books.contents, id);
    var r := books.UpdateBook(id, true, async, true);
    FirstIs(books.contents, id, i);
    r := books.UpdateBook(id, false, async, true);
  }
}
