/** The hand-rolled singly-linked LIFO stack the validator keeps its open tags in. */
module Stack {

  /** One cell of the list: a value fixed at construction and a mutable link. */
  class Node<T> {
    const value: T
    var next: Node?<T>

    /** A node with no successor. */
    constructor (value: T)
      ensures this.value == value && next == null
    {
      this.value := value;
      this.next := null;
    }

    /** A node linked in front of `next`. */
    constructor Linked(value: T, next: Node?<T>)
      ensures this.value == value && this.next == next
    {
      this.value := value;
      this.next := next;
    }

    method GetValue() returns (v: T)
      ensures v == value
    {
      v := value;
    }

    method GetNext() returns (n: Node?<T>)
      ensures n == next
    {
      n := next;
    }

    /** Relinks this node; its value, being constant, cannot change. */
    method SetNext(next: Node?<T>)
      modifies this
      ensures this.next == next
    {
      this.next := next;
    }
  }

  /**
   * The stack. `Contents` is its abstract value, top first; `Nodes` lists the cells from
   * `top` along the `next` links, one per element.
   */
  class MyStack<T> {
    var top: Node?<T>
    ghost var Contents: seq<T>
    ghost var Nodes: seq<Node<T>>
    ghost var Repr: set<object>

    ghost predicate Valid()
      reads this, Repr
    {
      && this in Repr
      && |Nodes| == |Contents|
      && top == (if Nodes == [] then null else Nodes[0])
      && (forall k :: 0 <= k < |Nodes| ==> Nodes[k] in Repr && Nodes[k].value == Contents[k])
      && (forall k :: 0 <= k < |Nodes| - 1 ==> Nodes[k].next == Nodes[k + 1])
      && (Nodes != [] ==> Nodes[|Nodes| - 1].next == null)
    }

    /** A new stack is empty (`top` starts out null). */
    constructor ()
      ensures Valid() && fresh(Repr)
      ensures Contents == []
    {
      top := null;
      Contents := [];
      Nodes := [];
      Repr := {this};
    }

    /** Puts `value` on top; the elements below are the previous contents, untouched. */
    method Push(value: T)
      requires Valid()
      modifies this
      ensures Valid() && fresh(Repr - old(Repr))
      ensures Contents == [value] + old(Contents)
    {
      ghost var cells := Nodes;
      var newNode := new Node(value);
      if top != null {
        newNode.SetNext(top);
      }
      top := newNode;
      Contents := [value] + Contents;
      Nodes := [newNode] + Nodes;
      Repr := Repr + {newNode};
      assert forall k :: 1 <= k < |Nodes| ==> Nodes[k] == cells[k - 1];
    }

    /** Removes and returns the top element; the rest stays as it was. */
    method Pop() returns (value: T)
      requires Valid() && Contents != []
      modifies this
      ensures Valid() && Repr == old(Repr)
      ensures value == old(Contents)[0]
      ensures Contents == old(Contents)[1..]
    {
      value := top.GetValue();
      top := top.GetNext();
      Contents := Contents[1..];
      Nodes := Nodes[1..];
    }

    /** Holds exactly when the stack has no elements. */
    method IsEmpty() returns (empty: bool)
      requires Valid()
      ensures empty <==> Contents == []
    {
      empty := top == null;
    }

    /** The top element, leaving the stack as it is. */
    method Peek() returns (value: T)
      requires Valid() && Contents != []
      ensures value == Contents[0]
    {
      value := top.GetValue();
    }
  }

  /** Popping right after pushing gives back the pushed value and the earlier contents. */
  method PushThenPop<T>(s: MyStack<T>, v: T) returns (popped: T)
    requires s.Valid()
    modifies s
    ensures s.Valid()
    ensures popped == v && s.Contents == old(s.Contents)
  {
    s.Push(v);
    popped := s.Pop();
  }
}
