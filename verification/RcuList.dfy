/** The circular doubly linked list of rcunit/src/rcunit_list.c.

    A list is a header link and the links inserted before it. The ghost sequence passed to each
    operation is the ring in order, header first. The memory tracer embeds a link in each of its
    tables; here the table is a field beside the pointers, and the list operations leave it alone. */
module RcuList {

  datatype PtrInfo = PtrInfo(ptr: nat, size: nat, used: bool)

  class Link {
    var next: Link?
    var prev: Link?
    var tbl: seq<PtrInfo>
    var freed: bool

    constructor (tbl: seq<PtrInfo>)
      ensures this.tbl == tbl && !freed
    {
      this.tbl := tbl;
      next, prev, freed := null, null, false;
    }
  }

  ghost function After(s: seq<Link>, i: nat): Link
    requires i < |s|
  {
    if i + 1 < |s| then s[i + 1] else s[0]
  }

  ghost function Before(s: seq<Link>, i: nat): Link
    requires i < |s|
  {
    if i > 0 then s[i - 1] else s[|s| - 1]
  }

  ghost predicate Apart(s: seq<Link>, i: nat, j: nat)
    requires i < |s| && j < |s|
  {
    s[i] != s[j]
  }

  /** The links of `s` form a ring in that order. */
  ghost predicate Ring(s: seq<Link>)
    reads s`next, s`prev
  {
    && |s| > 0
    && (forall i, j | 0 <= i < j < |s| :: Apart(s, i, j))
    && (forall i {:trigger s[i].next} | 0 <= i < |s| :: s[i].next == After(s, i))
    && (forall i {:trigger s[i].prev} | 0 <= i < |s| :: s[i].prev == Before(s, i))
  }

  lemma Unique(s: seq<Link>, i: nat, j: nat)
    requires Ring(s) && i < |s| && j < |s| && s[i] == s[j]
    ensures i == j
  {
    assert i < j ==> Apart(s, i, j);
    assert j < i ==> Apart(s, j, i);
  }

  /** Walking on from link `i` returns to the header only at the end. */
  lemma BackAtHeader(s: seq<Link>, i: nat)
    requires Ring(s) && i < |s| && After(s, i) == s[0]
    ensures i == |s| - 1
  {
    if i + 1 < |s| {
      Unique(s, i + 1, 0);
    }
  }

  /** None of these links has been freed, so all of them may be read and written. */
  ghost predicate InUse(s: seq<Link>)
    reads s`freed
  {
    forall l | l in s :: !l.freed
  }

  /** The list functions do nothing on a null pointer. */
  ghost function Given(l: Link?): set<Link> {
    if l == null then {} else {l}
  }

  /** rcu_init_list */
  method InitList(list: Link?)
    modifies Given(list)`next, Given(list)`prev
    ensures list != null ==> Ring([list])
  {
    if list != null {
      list.prev := list;
      list.next := list;
    }
  }

  /** rcu_is_list_empty */
  method IsListEmpty(list: Link?, ghost s: seq<Link>) returns (empty: bool)
    requires list != null ==> Ring(s) && s[0] == list
    ensures empty <==> list != null && s == [list]
  {
    empty := false;
    if list != null {
      empty := list.next == list;
      assert list.next == After(s, 0);
      if |s| > 1 {
        assert Apart(s, 0, 1);
      } else {
        assert s == [list];
      }
    }
  }

  /** rcu_insert_list puts the entry at the end of the ring. */
  method InsertList(list: Link?, entry: Link?, ghost s: seq<Link>)
    requires list != null && entry != null ==> Ring(s) && s[0] == list && entry !in s
    modifies s`next, s`prev, Given(entry)`next, Given(entry)`prev
    ensures if list != null && entry != null then Ring(s + [entry])
            else unchanged(s) && unchanged(Given(entry))
  {
    if list != null && entry != null {
      assert list.prev == Before(s, 0);
      entry.prev := list.prev;
      entry.next := list;
      list.prev.next := entry;
      list.prev := entry;
      ghost var r := s + [entry];
      forall i | 0 <= i < |r|
        ensures r[i].next == After(r, i) && r[i].prev == Before(r, i)
      {
        assert i < |s| ==> r[i] == s[i];
        assert i < |s| - 1 ==> Apart(s, i, |s| - 1);
        assert 0 < i < |s| ==> Apart(s, 0, i);
      }
      forall i, j | 0 <= i < j < |r|
        ensures Apart(r, i, j)
      {
        assert j < |s| ==> Apart(s, i, j);
      }
    }
  }

  ghost function Without(s: seq<Link>, k: nat): seq<Link>
    requires k < |s|
  {
    s[..k] + s[k + 1..]
  }

  /** The neighbours in the shortened ring: those of the long ring, except across the gap. */
  lemma NeighboursWithout(s: seq<Link>, k: nat, i: nat)
    requires k < |s| && |s| > 1 && i < |s| - 1
    ensures var r, j := Without(s, k), if i < k then i else i + 1;
            && r[i] == s[j]
            && After(r, i) == (if After(s, j) == s[k] && (j + 1 == k || (k == 0 && j == |s| - 1)) then After(s, k)
                               else After(s, j))
            && Before(r, i) == (if j == k + 1 || (k == |s| - 1 && j == 0) then Before(s, k) else Before(s, j))
  {
  }

  /** rcu_remove_list unlinks an entry from between its neighbours; the last link of a ring stays. */
  method RemoveList(entry: Link?, ghost s: seq<Link>, ghost k: nat)
    requires entry != null ==> Ring(s) && k < |s| && s[k] == entry && InUse(s)
    modifies s`next, s`prev
    ensures entry == null ==> unchanged(s)
    ensures entry != null ==>
              && entry.next == old(entry.next) && entry.prev == old(entry.prev)
              && Ring(if |s| > 1 then Without(s, k) else s)
  {
    if entry == null {
      return;
    }
    assert entry.next == After(s, k) && entry.prev == Before(s, k);
    if entry.next != entry {
      ghost var p, q := if k > 0 then k - 1 else |s| - 1, if k + 1 < |s| then k + 1 else 0;
      assert entry.prev == s[p] && entry.next == s[q];
      entry.prev.next := entry.next;
      entry.next.prev := entry.prev;
      forall i | 0 <= i < |s|
        ensures s[i].next == if i == p then s[q] else After(s, i)
        ensures s[i].prev == if i == q then s[p] else Before(s, i)
      {
        assert i < p ==> Apart(s, i, p);
        assert p < i ==> Apart(s, p, i);
        assert i < q ==> Apart(s, i, q);
        assert q < i ==> Apart(s, q, i);
      }
      ghost var r := Without(s, k);
      forall i | 0 <= i < |r|
        ensures r[i].next == After(r, i) && r[i].prev == Before(r, i)
      {
        NeighboursWithout(s, k, i);
      }
      DistinctWithout(s, k);
    } else if |s| > 1 {
      Unique(s, k, if k + 1 < |s| then k + 1 else 0);
    }
  }

  lemma DistinctWithout(s: seq<Link>, k: nat)
    requires k < |s| && forall i, j | 0 <= i < j < |s| :: Apart(s, i, j)
    ensures forall i, j | 0 <= i < j < |Without(s, k)| :: Apart(Without(s, k), i, j)
  {
    var r := Without(s, k);
    forall i, j | 0 <= i < j < |r|
      ensures Apart(r, i, j)
    {
      assert Apart(s, if i < k then i else i + 1, if j < k then j else j + 1);
    }
  }

  /** rcu_get_list_size */
  method GetListSize(list: Link?, ghost s: seq<Link>) returns (size: nat)
    requires list != null ==> Ring(s) && s[0] == list
    ensures size == if list == null then 0 else |s| - 1
  {
    size := 0;
    if list != null {
      var cursor := list.next;
      while cursor != list
        invariant size < |s| && cursor == After(s, size)
        decreases |s| - size
      {
        size := size + 1;
        cursor := cursor.next;
      }
      BackAtHeader(s, size);
    }
  }

  /** rcu_native_free: a link goes back once. */
  method Free(l: Link)
    requires !l.freed
    modifies l`freed
    ensures l.freed
  {
    l.freed := true;
  }

  /** The traversal that removes and frees while it walks: the cursor is moved back to its
      predecessor before the entry goes, so that the loop's own step finds the next one. Every
      link that the loop and the removal look at is in the ring that is left, which is in use; so
      every entry is visited and freed once, in order, and not looked at again, and the ring is
      left empty. */
  method RemoveAll(list: Link, ghost s: seq<Link>) returns (ghost visited: seq<Link>)
    requires Ring(s) && s[0] == list && InUse(s)
    modifies s`next, s`prev, s`freed
    ensures Ring([list]) && !list.freed
    ensures visited == s[1..] && forall l | l in visited :: l.freed
  {
    visited := [];
    ghost var ring := s;
    var cursor := list.next;
    assert cursor == After(s, 0);
    while cursor != list
      invariant Ring(ring) && ring[0] == list && cursor == After(ring, 0) && InUse(ring)
      invariant visited + ring[1..] == s[1..]
      invariant forall i | 0 <= i < |ring| :: ring[i] in s
      invariant forall l | l in visited :: l.freed
      decreases |ring|
    {
      assert cursor == ring[1] && cursor in ring;
      ghost var left := Without(ring, 1);
      OnlyOnce(ring, 1);
      var saved := cursor.prev;
      assert saved == Before(ring, 1);
      RemoveList(cursor, ring, 1);
      RemoveSecond(s, visited, ring);
      Free(cursor);
      visited, ring := visited + [ring[1]], left;
      assert saved == list && saved in ring;
      cursor := saved;
      cursor := cursor.next;
      assert cursor == After(ring, 0);
    }
    BackAtHeader(ring, 0);
    assert ring == [list];
  }

  lemma OnlyOnce(s: seq<Link>, k: nat)
    requires Ring(s) && k < |s|
    ensures s[k] !in Without(s, k)
  {
    if s[k] in Without(s, k) {
      var i :| 0 <= i < |s| && i != k && s[i] == s[k];
      Unique(s, i, k);
    }
  }

  lemma RemoveSecond(s: seq<Link>, visited: seq<Link>, ring: seq<Link>)
    requires |ring| > 1 && |s| > 0 && visited + ring[1..] == s[1..]
    ensures visited + [ring[1]] + Without(ring, 1)[1..] == s[1..]
    ensures Without(ring, 1)[0] == ring[0]
    ensures forall i | 0 <= i < |Without(ring, 1)| :: Without(ring, 1)[i] in ring
  {
  }
}
