/** The singly linked queue of Kernel/lib/queue.c, which holds the kernel's processes,
    semaphores, blocked pids and pipes. */
module LinkedQueue {
  import opened Wrappers

  // ---------------------------------------------------------------- sequences

  /** Position of the first element that meets the condition, or the length. */
  function FirstMatch<T>(s: seq<T>, condition: T -> bool): (k: nat)
    ensures k <= |s|
  {
    if s == [] || condition(s[0]) then 0 else 1 + FirstMatch(s[1..], condition)
  }

  lemma {:induction false} FirstMatchIsFirst<T>(s: seq<T>, condition: T -> bool, k: nat)
    requires k <= |s|
    ensures FirstMatch(s, condition) == k <==>
            (forall i :: 0 <= i < k ==> !condition(s[i])) && (k < |s| ==> condition(s[k]))
  {
    if s == [] {
    } else if condition(s[0]) {
    } else if k == 0 {
    } else {
      FirstMatchIsFirst(s[1..], condition, k - 1);
      assert forall i :: 0 <= i < k - 1 ==> s[1..][i] == s[i + 1];
      assert (forall i :: 0 <= i < k ==> !condition(s[i])) <==>
             (forall i :: 0 <= i < k - 1 ==> !condition(s[1..][i])) by {
        assert forall i :: 1 <= i < k ==> s[i] == s[1..][i - 1];
      }
    }
  }

  function Found<T>(s: seq<T>, condition: T -> bool): Option<T> {
    var k := FirstMatch(s, condition);
    if k < |s| then Some(s[k]) else None
  }

  /** s without its first match. */
  function Without<T>(s: seq<T>, condition: T -> bool): seq<T> {
    var k := FirstMatch(s, condition);
    if k < |s| then s[..k] + s[k + 1..] else s
  }

  /** Where at most one element can match, what is taken is gone and the rest keeps its order. */
  lemma TakenIsGone<T>(s: seq<T>, condition: T -> bool)
    requires forall i, j :: 0 <= i < j < |s| ==> !(condition(s[i]) && condition(s[j]))
    ensures Found(Without(s, condition), condition) == None
    ensures Found(s, condition).Some? ==> condition(Found(s, condition).value) && |Without(s, condition)| == |s| - 1
    ensures forall x :: x in s && !condition(x) <==> x in Without(s, condition)
  {
    var k := FirstMatch(s, condition);
    FirstMatchIsFirst(s, condition, k);
    var w := Without(s, condition);
    if k < |s| {
      assert forall i :: 0 <= i < |w| ==> w[i] == s[if i < k then i else i + 1];
      forall x | x in s && !condition(x) ensures x in w {
        var i :| 0 <= i < |s| && s[i] == x;
        assert i != k;
        assert w[if i < k then i else i - 1] == x;
      }
      assert forall i :: 0 <= i < |w| ==> !condition(w[i]);
    }
    FirstMatchIsFirst(w, condition, |w|);
  }

  /** Taking an element loses and invents nothing. */
  lemma TakeConserves<T>(s: seq<T>, condition: T -> bool)
    ensures var found := Found(s, condition);
      multiset(s) == multiset(Without(s, condition)) + (if found.Some? then multiset{found.value} else multiset{})
  {
    hide FirstMatch;
    var k := FirstMatch(s, condition);
    if k < |s| { TakenOut(s, k); }
  }

  lemma TakenOut<T>(s: seq<T>, k: nat)
    requires k < |s|
    ensures multiset(s) == multiset(s[..k] + s[k + 1..]) + multiset{s[k]}
  {
    assert s == s[..k] + ([s[k]] + s[k + 1..]);
  }

  // ---------------------------------------------------------------- the queue

  class Node<T> {
    var value: T
    var next: Node?<T>

    constructor (value: T)
      ensures this.value == value && next == null
    {
      this.value := value;
      next := null;
    }
  }

  class Queue<T> {
    var first: Node?<T>
    var last: Node?<T>
    var size: nat
    /** The nodes from first to last. */
    ghost var nodes: seq<Node<T>>

    /** last is only meaningful while there are nodes: after dequeue empties the queue it
        still refers to the node that was removed. */
    ghost predicate Valid()
      reads this, nodes
    {
      && size == |nodes|
      && (forall i, j :: 0 <= i < j < |nodes| ==> nodes[i] != nodes[j])
      && first == (if nodes == [] then null else nodes[0])
      && (nodes != [] ==> last == nodes[|nodes| - 1])
      && (nodes != [] ==> last.next == null)
      && forall i :: 0 <= i < |nodes| - 1 ==> nodes[i].next == nodes[i + 1]
    }

    ghost function Contents(): (s: seq<T>)
      reads this, nodes
      ensures |s| == |nodes| && forall i :: 0 <= i < |s| ==> s[i] == nodes[i].value
    {
      seq(|nodes|, i requires 0 <= i < |nodes| reads this, nodes => nodes[i].value)
    }

    constructor ()
      ensures Valid() && Contents() == [] && nodes == []
    {
      first, last, size, nodes := null, null, 0, [];
    }

    method Enqueue(value: T)
      requires Valid()
      modifies this, nodes
      ensures Valid() && Contents() == old(Contents()) + [value]
      ensures nodes[..|nodes| - 1] == old(nodes) && fresh(nodes[|nodes| - 1])
    {
      var newNode := new Node(value);
      if size == 0 {
        first := newNode;
        last := newNode;
      } else {
        last.next := newNode;
        last := newNode;
      }
      size := size + 1;
      nodes := nodes + [newNode];
      assert newNode !in old(nodes) && forall i :: 0 <= i < |old(nodes)| ==> nodes[i] == old(nodes)[i];
      assert Valid();
    }

    method Dequeue() returns (value: Option<T>)
      requires Valid()
      modifies this
      ensures Valid()
      ensures value == (if old(Contents()) == [] then None else Some(old(Contents())[0]))
      ensures Contents() == if old(Contents()) == [] then [] else old(Contents())[1..]
      ensures nodes == if old(nodes) == [] then [] else old(nodes)[1..]
    {
      if size <= 0 {
        return None;
      }
      var aux := first;
      first := first.next;
      size := size - 1;
      nodes := nodes[1..];
      value := Some(aux.value);
    }

    method Peek() returns (value: Option<T>)
      requires Valid()
      ensures value == if Contents() == [] then None else Some(Contents()[0])
    {
      if size == 0 {
        return None;
      }
      value := Some(first.value);
    }

    /** The first element that meets the condition, by an iterator from the front. */
    method Find(condition: T -> bool) returns (value: Option<T>)
      requires Valid()
      ensures value == Found(Contents(), condition)
    {
      var curr := first;
      var found := false;
      value := None;
      ghost var i := 0;
      while curr != null && !found
        invariant 0 <= i <= |nodes| && curr == (if i < |nodes| then nodes[i] else null)
        invariant !found ==> forall j :: 0 <= j < i ==> !condition(Contents()[j])
        invariant found ==> 0 < i && condition(Contents()[i - 1]) && value == Some(Contents()[i - 1])
        invariant found ==> forall j :: 0 <= j < i - 1 ==> !condition(Contents()[j])
        decreases |nodes| - i
      {
        value := Some(curr.value);
        curr := curr.next;
        i := i + 1;
        found := condition(value.value);
      }
      if !found {
        value := None;
      }
      FirstMatchIsFirst(Contents(), condition, if found then i - 1 else i);
    }

    /** The node at position i goes, first and last following if it stood at an end. */
    method Unlink(prev: Node?<T>, node: Node<T>, ghost i: nat)
      requires Valid() && i < |nodes| && node == nodes[i]
      requires prev == if i == 0 then null else nodes[i - 1]
      modifies this, nodes
      ensures Valid() && nodes == old(nodes)[..i] + old(nodes)[i + 1..]
      ensures Contents() == old(Contents())[..i] + old(Contents())[i + 1..]
      ensures node.value == old(node.value)
    {
      if i + 1 < |nodes| {
        assert node.next == nodes[i + 1];
      } else {
        assert node == last;
      }
      if prev == null {
        first := node.next;
      } else {
        prev.next := node.next;
      }
      if node.next == null {
        last := prev;
      }
      size := size - 1;
      nodes := nodes[..i] + nodes[i + 1..];
      assert forall j :: 0 <= j < |nodes| ==> nodes[j] == old(nodes)[if j < i then j else j + 1];
    }

    /** Unlinks the first element that meets the condition, wherever it stands. */
    method TakeElement(condition: T -> bool) returns (value: Option<T>)
      requires Valid()
      modifies this, nodes
      ensures Valid()
      ensures value == Found(old(Contents()), condition)
      ensures Contents() == Without(old(Contents()), condition)
      ensures forall n :: n in nodes ==> n in old(nodes)
    {
      hide FirstMatch;
      if size == 0 {
        FirstMatchIsFirst(Contents(), condition, 0);
        return None;
      }
      var node := first;
      var prev: Node?<T> := null;
      ghost var s, i := Contents(), 0;
      while node != null && !condition(node.value)
        invariant 0 <= i <= |nodes| && node == (if i < |nodes| then nodes[i] else null)
        invariant prev == (if i == 0 then null else nodes[i - 1])
        invariant forall j :: 0 <= j < i ==> !condition(s[j])
        decreases |nodes| - i
      {
        prev := node;
        node := node.next;
        i := i + 1;
      }
      FirstMatchIsFirst(s, condition, i);
      if node == null {
        return None;
      }
      Unlink(prev, node, i);
      value := Some(node.value);
    }
  }
}
