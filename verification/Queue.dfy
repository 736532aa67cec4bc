/** Circular doubly linked queues, as the macros ADDQ, INSQ, DELQ and NEXTQ make them. */
module Queue {
  /** An element: its links, and what it carries. */
  class Elem<T> {
    var next: Elem?<T>
    var prev: Elem?<T>
    var item: T

    constructor (item: T)
      ensures this.item == item
    {
      this.item, next, prev := item, null, null;
    }
  }

  function Before<T>(q: seq<Elem<T>>, i: nat): Elem<T>
    requires i < |q|
  {
    if i == 0 then q[|q| - 1] else q[i - 1]
  }

  function After<T>(q: seq<Elem<T>>, i: nat): Elem<T>
    requires i < |q|
  {
    if i + 1 == |q| then q[0] else q[i + 1]
  }

  /** The elements of `q` are distinct and linked in a circle in this order. */
  ghost predicate Ring<T>(q: seq<Elem<T>>)
    reads q`next, q`prev
  {
    && (forall i, j :: 0 <= i < j < |q| ==> q[i] != q[j])
    && (forall i :: 0 <= i < |q| ==> q[i].next == After(q, i) && q[i].prev == Before(q, i))
  }

  lemma RingDistinct<T>(q: seq<Elem<T>>)
    requires Ring(q)
    ensures forall i, j :: 0 <= i < j < |q| ==> q[i] != q[j]
  {}

  /** The pointer to a queue: its first element, or null. */
  function HeadOf<T>(q: seq<Elem<T>>): Elem?<T> {
    if q == [] then null else q[0]
  }

  /** INSQ: in front. */
  method Insq<T>(elem: Elem<T>, pred: Elem?<T>, ghost q: seq<Elem<T>>) returns (head: Elem<T>)
    requires Ring(q) && pred == HeadOf(q) && elem !in q
    modifies elem`next, elem`prev, q`next, q`prev
    ensures Ring([elem] + q) && head == HeadOf([elem] + q)
  {
    if pred != null {
      elem.next := pred;
      elem.prev := pred.prev;
      pred.prev.next := elem;
      pred.prev := elem;
    } else {
      elem.prev := elem;
      elem.next := elem;
    }
    head := elem;
  }

  /** ADDQ: at the end. */
  method Addq<T>(elem: Elem<T>, pred: Elem?<T>, ghost q: seq<Elem<T>>) returns (head: Elem<T>)
    requires Ring(q) && pred == HeadOf(q) && elem !in q
    modifies elem`next, elem`prev, q`next, q`prev
    ensures Ring(q + [elem]) && head == HeadOf(q + [elem])
  {
    if pred != null {
      elem.next := pred;
      elem.prev := pred.prev;
      pred.prev.next := elem;
      pred.prev := elem;
      head := pred;
    } else {
      elem.prev := elem;
      elem.next := elem;
      head := elem;
    }
  }

  /** The queue without its element `i`. */
  function Cut<T>(q: seq<Elem<T>>, i: nat): (r: seq<Elem<T>>)
    requires i < |q|
    ensures |r| == |q| - 1 && forall j :: 0 <= j < |r| ==> r[j] == q[if j < i then j else j + 1]
  {
    q[..i] + q[i + 1..]
  }

  /** Only the neighbours of the element that goes get new neighbours. */
  lemma CutLinks<T>(q: seq<Elem<T>>, i: nat, j: nat)
    requires i < |q| && j < |q| - 1 && forall k, l :: 0 <= k < l < |q| ==> q[k] != q[l]
    ensures var r, k := Cut(q, i), if j < i then j else j + 1;
            && After(r, j) == (if q[k] == Before(q, i) then After(q, i) else After(q, k))
            && Before(r, j) == (if q[k] == After(q, i) then Before(q, i) else Before(q, k))
  {}

  /** DELQ: the element at place `i` of the queue. */
  method Delq<T>(elem: Elem<T>, first: Elem?<T>, ghost q: seq<Elem<T>>, ghost i: nat) returns (head: Elem?<T>)
    requires Ring(q) && first == HeadOf(q) && i < |q| && q[i] == elem
    modifies q`next, q`prev
    ensures Ring(Cut(q, i)) && head == HeadOf(Cut(q, i))
  {
    ghost var r := Cut(q, i);
    head := first;
    if elem.next == elem {
      head := null;
    }
    elem.prev.next := elem.next;
    elem.next.prev := elem.prev;
    if elem == head {
      head := elem.next;
    }
    forall j | 0 <= j < |r| ensures r[j].next == After(r, j) && r[j].prev == Before(r, j) {
      CutLinks(q, i, j);
    }
  }

  /** NEXTQ: the walk round a queue comes back to its head after the last element, and not before. */
  lemma NextInRing<T>(q: seq<Elem<T>>, i: nat)
    requires Ring(q) && i < |q|
    ensures q[i].next == q[0] <==> i + 1 == |q|
    ensures i + 1 < |q| ==> q[i].next == q[i + 1]
  {}
}
