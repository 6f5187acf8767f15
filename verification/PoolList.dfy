/** The list of list.h: circular links over a pool of 64 boxes, with malloc behind it. */
module PoolList {
  datatype Status = Unused | Used | Malloc

  /** An address; 0 is NULL. */
  type Pointer = nat

  class Element {
    var status: Status
    var prev: Element?
    var next: Element?
    var data: Pointer

    constructor ()
      ensures status == Unused && prev == null && next == null && data == 0
    {
      status, prev, next, data := Unused, null, null, 0;
    }
  }

  // ----- What the operations mean -----

  function RemoveFirst(s: seq<Pointer>, x: Pointer): (r: seq<Pointer>) {
    if s == [] then [] else if s[0] == x then s[1..] else [s[0]] + RemoveFirst(s[1..], x)
  }

  lemma {:induction false} RemoveFirstAt(s: seq<Pointer>, x: Pointer, k: nat)
    requires k < |s| && s[k] == x && x !in s[..k]
    ensures RemoveFirst(s, x) == s[..k] + s[k + 1..]
  {
    if k > 0 {
      assert s[..k][0] == s[0];
      assert s[1..][..k - 1] == s[..k][1..];
      RemoveFirstAt(s[1..], x, k - 1);
      assert [s[0]] + (s[1..][..k - 1] + s[1..][k..]) == s[..k] + s[k + 1..];
    }
  }

  lemma {:induction false} RemoveFirstCounts(s: seq<Pointer>, x: Pointer)
    ensures multiset(RemoveFirst(s, x)) == multiset(s) - multiset{x}
  {
    if s != [] {
      assert s == [s[0]] + s[1..];
      RemoveFirstCounts(s[1..], x);
    }
  }

  lemma {:induction false} RemoveEarlier(s: seq<Pointer>, x: Pointer)
    requires x in s
    ensures RemoveFirst(s + [x], x) == RemoveFirst(s, x) + [x]
  {
    if s[0] == x {
      assert (s + [x])[1..] == s[1..] + [x];
    } else {
      assert (s + [x])[1..] == s[1..] + [x];
      RemoveEarlier(s[1..], x);
    }
  }

  /** Removing what was just appended restores the list; what was there before goes first. */
  lemma RemoveUndoesAppend(s: seq<Pointer>, x: Pointer)
    ensures x !in s ==> RemoveFirst(s + [x], x) == s
    ensures x in s ==> RemoveFirst(s + [x], x) == RemoveFirst(s, x) + [x]
  {
    if x in s {
      RemoveEarlier(s, x);
    } else {
      RemoveFirstAt(s + [x], x, |s|);
    }
  }

  // ----- The structure -----

  function Next(i: nat, n: nat): nat
    requires i < n
  {
    if i + 1 < n then i + 1 else 0
  }

  function Prev(i: nat, n: nat): nat
    requires i < n
  {
    if i == 0 then n - 1 else i - 1
  }

  class List {
    const pool: seq<Element>
    var count: int

    ghost var chain: seq<Element>
    ghost var used: set<Element>
    ghost var repr: set<Element>
    ghost var contents: seq<Pointer>

    ghost function Pool(): set<Element> {
      set e | e in pool
    }

    ghost predicate Distinct(c: seq<Element>) {
      forall i, j :: 0 <= i < j < |c| ==> c[i] != c[j]
    }

    /** Following `next` walks the chain and comes back to the head. */
    ghost predicate Forward(c: seq<Element>)
      reads c`next
    {
      forall i :: 0 <= i < |c| ==> c[i].next == c[Next(i, |c|)]
    }

    /** Following `prev` walks it the other way. */
    ghost predicate Backward(c: seq<Element>)
      reads c`prev
    {
      forall i :: 0 <= i < |c| ==> c[i].prev == c[Prev(i, |c|)]
    }

    ghost predicate Linked(c: seq<Element>)
      reads c`next, c`prev
    {
      Forward(c) && Backward(c)
    }

    /** Pool slots are used exactly while they are in the chain; other boxes in the chain are malloc'd. */
    ghost predicate Accounted(c: seq<Element>, u: set<Element>)
      reads c`status, pool`status
    {
      && (forall e :: e in pool ==> e.status == if e in u then Used else Unused)
      && (forall e :: e in u ==> e in pool && e in c)
      && (forall e :: e in pool && e in c ==> e in u)
      && (forall e :: e in c && e !in u ==> e.status == Malloc)
    }

    ghost predicate Shape()
      reads this
    {
      && |pool| == 64 && |Pool()| == 64
      && (forall e :: e in pool ==> e in repr) && (forall e :: e in chain ==> e in repr)
    }

    ghost predicate Initialised()
      reads this, repr
      requires Shape()
    {
      && chain != [] && chain[0] == pool[0] && Distinct(chain)
      && Linked(chain) && Accounted(chain, used) && count == |used|
      && |contents| == |chain| - 1 && forall k :: 0 <= k < |contents| ==> chain[k + 1].data == contents[k]
    }

    /** Not yet initialised: the head has no successor. */
    ghost predicate Valid()
      reads this, repr
    {
      Shape() && if pool[0].next == null then chain == [] && contents == [] else Initialised()
    }

    constructor ()
      ensures Valid() && contents == [] && fresh(repr)
    {
      var slots: seq<Element> := [];
      ghost var all: set<Element> := {};
      while |slots| < 64
        invariant |slots| <= 64 && |all| == |slots| && (forall e :: e in slots ==> fresh(e)) && all == (set e | e in slots)
        invariant forall e :: e in slots ==> e.status == Unused && e.next == null
      {
        var e := new Element();
        assert (set x | x in slots + [e]) == all + {e};
        slots, all := slots + [e], all + {e};
      }
      pool, count := slots, 0;
      chain, used, repr, contents := [], {}, all, [];
      new;
      assert Pool() == all;
    }

    /** memset of the whole list, then the head takes the first slot and points at itself. */
    method Initialise()
      requires Valid() && chain == []
      modifies this, repr
      ensures Valid() && chain == [pool[0]] && contents == [] && repr == old(repr)
    {
      var i := 0;
      while i < 64
        invariant 0 <= i <= 64
        invariant forall k :: 0 <= k < i ==> pool[k].status == Unused
        invariant Shape() && chain == [] && repr == old(repr)
      {
        var e := pool[i];
        e.status, e.prev, e.next, e.data := Unused, null, null, 0;
        i := i + 1;
      }
      var head := pool[0];
      head.status := Used;
      count := 1;
      head.next, head.prev := head, head;
      chain, used, contents := [head], {head}, [];
      assert forall e :: e in pool && e != head ==> e.status == Unused;
    }

    /** A fresh or free box, already marked and counted. */
    ghost predicate Ready(box: Element)
      reads this, chain, pool, box
    {
      && Shape() && chain != [] && chain[0] == pool[0] && Distinct(chain) && Linked(chain) && box !in chain
      && Accounted(chain + [box], if box in pool then used + {box} else used)
      && box !in used && count == |used| + (if box in pool then 1 else 0)
      && |contents| == |chain| - 1 && forall k :: 0 <= k < |contents| ==> chain[k + 1].data == contents[k]
    }

    lemma Subset(a: set<Element>, b: set<Element>)
      requires a <= b
      ensures |a| <= |b|
    {
      assert b == a + (b - a);
    }

    /** Below 64 the search always finds a slot that is free. */
    method FindSlot() returns (box: Element)
      requires Valid() && chain != [] && count < 64
      ensures box in pool && box !in used && box !in chain
    {
      hide Linked;
      var i := 0;
      while i < 64 && pool[i].status != Unused
        invariant 0 <= i <= 64
        invariant forall k :: 0 <= k < i ==> pool[k] in used
      {
        i := i + 1;
      }
      if i == 64 {
        assert Pool() <= used;
        Subset(Pool(), used);
        assert false;
      }
      box := pool[i];
    }

    /** Takes a slot of the pool. */
    method TakeSlot() returns (box: Element)
      requires Valid() && chain != [] && count < 64
      modifies this`count, pool`status
      ensures Ready(box) && box in pool
    {
      hide Linked, Distinct;
      box := FindSlot();
      count := count + 1;
      box.status := Used;
    }

    method NewBox() returns (box: Element)
      requires Valid() && chain != []
      ensures Ready(box) && box !in pool && fresh(box)
    {
      hide Linked, Distinct;
      box := new Element();
      box.status := Malloc;
    }

    /** PRE_ALLOC: a free slot while there is one, which the count tells; a malloc'd box otherwise. */
    method Allocate() returns (box: Element)
      requires Valid() && chain != []
      modifies this`count, pool`status
      ensures Ready(box) && (box in pool || fresh(box))
      ensures box in pool <==> old(count) < 64
    {
      hide Ready;
      if count >= 64 {
        box := NewBox();
      } else {
        box := TakeSlot();
      }
    }

    /** The box goes between the last one and the head. */
    method Link(box: Element)
      requires chain != [] && |pool| > 0 && chain[0] == pool[0] && Distinct(chain) && Linked(chain) && box !in chain
      modifies chain`next, chain`prev, box`next, box`prev
      ensures Linked(chain + [box])
    {
      var head := pool[0];
      ghost var n := |chain|;
      assert head.prev == chain[n - 1];
      box.next := head;
      box.prev := head.prev;
      head.prev.next := box;
      head.prev := box;
    }

    lemma HeadLinked()
      requires chain != [] && |pool| == 64 && chain[0] == pool[0] && Linked(chain)
      ensures pool[0].next != null
    {
    }

    method Insert(box: Element, el: Pointer)
      requires Ready(box)
      modifies this, chain, box
      ensures Valid() && contents == old(contents) + [el] && repr == old(repr) + {box}
    {
      hide Linked, Accounted;
      box.data := el;
      Link(box);
      repr := repr + {box};
      if box in pool {
        used := used + {box};
      }
      chain, contents := chain + [box], contents + [el];
      HeadLinked();
    }

    /** list_append. */
    method Append(el: Pointer)
      requires Valid()
      modifies this, repr
      ensures Valid() && contents == old(contents) + [el] && fresh(repr - old(repr))
    {
      hide Ready;
      if pool[0].next == null {
        Initialise();
      }
      var box := Allocate();
      Insert(box, el);
    }

    // ----- Taking boxes out -----

    lemma ForwardAround(k: nat)
      requires 1 <= k < |chain| && chain[k - 1].next == chain[Next(k, |chain|)]
      requires forall i :: 0 <= i < |chain| && i != k - 1 ==> chain[i].next == chain[Next(i, |chain|)]
      ensures Forward(chain[..k] + chain[k + 1..])
    {
    }

    lemma BackwardAround(k: nat)
      requires 1 <= k < |chain| && chain[Next(k, |chain|)].prev == chain[k - 1]
      requires forall i :: 0 <= i < |chain| && i != Next(k, |chain|) ==> chain[i].prev == chain[Prev(i, |chain|)]
      ensures Backward(chain[..k] + chain[k + 1..])
    {
    }

    /** Both neighbours of a box are linked to each other. */
    method Unlink(box: Element, ghost k: nat)
      requires 1 <= k < |chain| && chain[k] == box && Distinct(chain) && Linked(chain)
      modifies chain`next, chain`prev
      ensures Linked(chain[..k] + chain[k + 1..])
    {
      ghost var n := |chain|;
      assert box.prev == chain[k - 1] && box.next == chain[Next(k, n)];
      box.prev.next := box.next;
      box.next.prev := box.prev;
      ForwardAround(k);
      BackwardAround(k);
    }

    lemma MembersWithout(c: seq<Element>, k: nat)
      requires 1 <= k < |c| && Distinct(c)
      ensures c[k] !in c[..k] + c[k + 1..]
      ensures forall e :: e in c[..k] + c[k + 1..] ==> e in c
      ensures forall e :: e in c && e != c[k] ==> e in c[..k] + c[k + 1..]
    {
    }

    /** PRE_FREE of a box that is no longer linked. */
    method Free(box: Element, ghost k: nat)
      requires Shape() && 1 <= k < |chain| && chain[k] == box && chain[0] == pool[0] && Distinct(chain)
      requires Accounted(chain, used) && count == |used|
      modifies `count, `used, box`status
      ensures Accounted(chain[..k] + chain[k + 1..], used) && count == |used|
    {
      MembersWithout(chain, k);
      hide Distinct;
      if box.status == Used {
        box.status := Unused;
        count := count - 1;
        used := used - {box};
      } else {
        box.status := Unused;
      }
    }

    lemma WithoutOne(c: seq<Element>, k: nat)
      requires 1 <= k < |c| && Distinct(c)
      ensures Distinct(c[..k] + c[k + 1..])
    {
    }

    method TakeOut(box: Element, ghost k: nat)
      requires Valid() && 1 <= k < |chain| && chain[k] == box
      modifies this, repr
      ensures Valid() && repr == old(repr) && chain == old(chain[..k] + chain[k + 1..])
      ensures contents == old(contents[..k - 1] + contents[k..])
    {
      hide Linked, Accounted, Distinct;
      Unlink(box, k);
      Free(box, k);
      WithoutOne(chain, k);
      chain, contents := chain[..k] + chain[k + 1..], contents[..k - 1] + contents[k..];
      HeadLinked();
    }

    /** list_remove: the first box that holds the pointer; FATAL when there is none. */
    method Remove(x: Pointer) returns (found: bool)
      requires Valid()
      modifies this, repr
      ensures Valid() && repr == old(repr)
      ensures found <==> x in old(contents)
      ensures contents == if found then RemoveFirst(old(contents), x) else old(contents)
    {
      hide Accounted;
      var head := pool[0];
      if head.next == null {
        return false;
      }
      var box := head.next;
      ghost var k: nat := 1;
      while box != head
        invariant Valid() && contents == old(contents) && chain == old(chain) && repr == old(repr) && head == pool[0] == chain[0]
        invariant 1 <= k <= |chain| && box == if k < |chain| then chain[k] else head
        invariant x !in contents[..k - 1]
        decreases |chain| - k
      {
        if box.data == x {
          RemoveFirstAt(contents, x, k - 1);
          TakeOut(box, k);
          box.data := 0;
          return true;
        }
        assert contents[..k] == contents[..k - 1] + [contents[k - 1]];
        box := box.next;
        k := k + 1;
      }
      return false;
    }

    /** list_contains; FATAL on a list never appended to. */
    method Contains(x: Pointer) returns (ok: bool, found: bool)
      requires Valid()
      ensures ok <==> chain != []
      ensures found <==> x in contents
    {
      var head := pool[0];
      if head.next == null {
        return false, false;
      }
      var box := head.next;
      ghost var k: nat := 1;
      while box != head
        invariant 1 <= k <= |chain| && box == if k < |chain| then chain[k] else head
        invariant x !in contents[..k - 1]
        decreases |chain| - k
      {
        if box.data == x {
          assert chain[k].data == contents[k - 1];
          return true, true;
        }
        assert contents[..k] == contents[..k - 1] + [contents[k - 1]];
        box := box.next;
        k := k + 1;
      }
      return true, false;
    }

    lemma FirstAndSecond()
      requires Valid() && chain != []
      ensures chain[0].next == chain[Next(0, |chain|)]
      ensures |chain| > 1 ==> chain[1].next == chain[Next(1, |chain|)] && chain[1] != chain[0]
    {
    }

    lemma OnlyTheHead()
      requires Valid() && |chain| == 1
      ensures chain == [pool[0]] && count == 1
    {
      assert used == {pool[0]};
    }

    /** LIST_FOREACH_CLEAR: every pointer is seen once, in order, and every box is given back. */
    method Clear() returns (ok: bool, seen: seq<Pointer>)
      requires Valid()
      modifies this, repr
      ensures Valid() && repr == old(repr) && contents == []
      ensures ok <==> old(chain) != []
      ensures seen == old(contents)
      ensures ok ==> chain == [pool[0]] && count == 1
    {
      hide Linked, Accounted, Distinct;
      var head := pool[0];
      seen := [];
      if head.next == null {
        return false, [];
      }
      ghost var all := contents;
      FirstAndSecond();
      var box := head.next;
      while box != head
        invariant Valid() && chain != [] && repr == old(repr) && head == pool[0]
        invariant box == if |chain| > 1 then chain[1] else head
        invariant all == seen + contents
        decreases |chain|
      {
        FirstAndSecond();
        var next := box.next;
        seen := seen + [box.data];
        TakeOut(box, 1);
        box := next;
      }
      FirstAndSecond();
      OnlyTheHead();
      return true, seen;
    }
  }

  // ----- Runs -----

  datatype Call = Add(x: Pointer) | Drop(x: Pointer)

  function After(s: seq<Pointer>, calls: seq<Call>): seq<Pointer> {
    if calls == [] then s
    else
      var before := After(s, calls[..|calls| - 1]);
      match calls[|calls| - 1]
      case Add(x) => before + [x]
      case Drop(x) => RemoveFirst(before, x)
  }

  lemma OneMoreCall(s: seq<Pointer>, calls: seq<Call>, n: nat)
    requires n < |calls|
    ensures After(s, calls[..n + 1]) ==
            match calls[n] case Add(x) => After(s, calls[..n]) + [x] case Drop(x) => RemoveFirst(After(s, calls[..n]), x)
  {
    assert calls[..n + 1][..n] == calls[..n];
  }

  lemma EmptyRun(calls: seq<Call>)
    ensures After([], calls[..0]) == []
  {
  }

  /** Any calls on a new list, up to the first removal of something that is not there. */
  method Perform(calls: seq<Call>) returns (list: List, done: nat)
    ensures list.Valid() && done <= |calls| && list.contents == After([], calls[..done])
    ensures done < |calls| ==> calls[done].Drop? && calls[done].x !in list.contents
  {
    hide After, RemoveFirst, List.Initialised, List.Shape;
    list := new List();
    done := 0;
    EmptyRun(calls);
    while done < |calls|
      invariant done <= |calls| && list.Valid() && fresh(list) && fresh(list.repr)
      invariant list.contents == After([], calls[..done])
    {
      OneMoreCall([], calls, done);
      match calls[done] {
        case Add(x) => list.Append(x);
        case Drop(x) =>
          var found := list.Remove(x);
          if !found {
            return;
          }
      }
      done := done + 1;
    }
  }
}
