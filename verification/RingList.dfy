/** The doubly linked list the cache keeps its recency order in: a ring through a
    sentinel, as container/list builds it. */
module RingList {
  class Element<T> {
    const value: T
    var prev: Element?<T>
    var next: Element?<T>

    constructor (value: T)
      ensures this.value == value && prev == null && next == null
    {
      this.value, prev, next := value, null, null;
    }
  }

  ghost predicate Distinct<T>(s: seq<T>) {
    forall i, j :: 0 <= i < j < |s| ==> s[i] != s[j]
  }

  // s with the element at k taken out.
  function Without<T>(s: seq<T>, k: nat): (r: seq<T>)
    requires k < |s|
    ensures |r| == |s| - 1
    ensures forall j :: 0 <= j < k ==> r[j] == s[j]
    ensures forall j :: k <= j < |r| ==> r[j] == s[j + 1]
  {
    s[..k] + s[k + 1..]
  }

  lemma WithoutMembers<T>(s: seq<T>, k: nat)
    requires k < |s|
    ensures forall x :: x in s <==> x == s[k] || x in Without(s, k)
    ensures Distinct(s) ==> s[k] !in Without(s, k)
  {
    forall x | x in s && x != s[k] ensures x in Without(s, k) {
      var j :| 0 <= j < |s| && s[j] == x;
      assert x == Without(s, k)[if j < k then j else j - 1];
    }
  }

  class List<T> {
    const root: Element<T>
    var len: nat
    // The elements front to back, the sentinel left out.
    ghost var elems: seq<Element<T>>

    ghost function Ring(): seq<Element<T>>
      reads this
    {
      [root] + elems + [root]
    }

    ghost predicate Valid()
      reads this, root, elems
    {
      && len == |elems|
      && root !in elems && Distinct(elems)
      && (forall i {:trigger Ring()[i].next} :: 0 <= i <= |elems| ==> Ring()[i].next == Ring()[i + 1])
      && (forall i {:trigger Ring()[i].prev} :: 1 <= i <= |elems| + 1 ==> Ring()[i].prev == Ring()[i - 1])
    }

    constructor (seed: T)
      ensures Valid() && elems == []
      ensures fresh(root)
    {
      root := new Element(seed);
      len, elems := 0, [];
      new;
      root.prev, root.next := root, root;
    }

    method Back() returns (e: Element?<T>)
      requires Valid()
      ensures e == if elems == [] then null else elems[|elems| - 1]
    {
      if len == 0 {
        return null;
      }
      assert Ring()[|elems| + 1].prev == Ring()[|elems|];
      e := root.prev;
    }

    method InsertFront(e: Element<T>)
      requires Valid() && e !in elems && e != root
      modifies this, root, elems, e
      ensures Valid() && elems == [e] + old(elems)
    {
      assert Ring()[0].next == Ring()[1];
      var after := root.next;
      e.prev, e.next := root, after;
      root.next := e;
      after.prev := e;
      len := len + 1;
      elems := [e] + elems;
      forall i | 0 <= i <= |elems| ensures Ring()[i].next == Ring()[i + 1] {
        if i >= 2 { assert Ring()[i] == old(Ring())[i - 1] && Ring()[i + 1] == old(Ring())[i]; }
      }
      forall i | 1 <= i <= |elems| + 1 ensures Ring()[i].prev == Ring()[i - 1] {
        if i >= 3 { assert Ring()[i] == old(Ring())[i - 1] && Ring()[i - 1] == old(Ring())[i - 2]; }
      }
    }

    // Unlink the element at position k.
    method Remove(e: Element<T>, ghost k: nat)
      requires Valid() && k < |elems| && elems[k] == e
      modifies this, root, elems
      ensures Valid() && elems == Without(old(elems), k)
    {
      assert Ring()[k + 1] == e;
      assert Ring()[k + 1].prev == Ring()[k] && Ring()[k + 1].next == Ring()[k + 2];
      var before, after := e.prev, e.next;
      before.next := after;
      after.prev := before;
      e.prev, e.next := null, null;
      len := len - 1;
      elems := Without(elems, k);
      forall i | 0 <= i <= |elems| ensures Ring()[i].next == Ring()[i + 1] {
        if i < k {
          assert Ring()[i] == old(Ring())[i] && Ring()[i + 1] == old(Ring())[i + 1] && Ring()[i] != before;
        } else if i == k {
          assert Ring()[k] == before && Ring()[k + 1] == after;
        } else {
          assert Ring()[i] == old(Ring())[i + 1] && Ring()[i + 1] == old(Ring())[i + 2] && Ring()[i] != before;
        }
      }
      forall i | 1 <= i <= |elems| + 1 ensures Ring()[i].prev == Ring()[i - 1] {
        if i <= k { assert Ring()[i] == old(Ring())[i]; } else { assert Ring()[i] == old(Ring())[i + 1]; }
      }
    }

    method PushFront(v: T) returns (e: Element<T>)
      requires Valid()
      modifies this, root, elems
      ensures Valid() && fresh(e) && e.value == v && elems == [e] + old(elems)
    {
      e := new Element(v);
      InsertFront(e);
    }

    method MoveToFront(e: Element<T>, ghost k: nat)
      requires Valid() && k < |elems| && elems[k] == e
      modifies this, root, elems
      ensures Valid() && elems == [e] + Without(old(elems), k)
    {
      assert Ring()[0].next == Ring()[1];
      if root.next == e {
        assert k == 0;
        return;
      }
      Remove(e, k);
      InsertFront(e);
    }

    method Init()
      requires Valid()
      modifies this, root
      ensures Valid() && elems == []
    {
      root.prev, root.next := root, root;
      len, elems := 0, [];
    }
  }
}
