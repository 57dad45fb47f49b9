// The linked task queue of thread_pool.c as a heap structure: head and tail pointers and a count.
module TaskQueue {

  // A task_t node; `arg` stands for the function and argument pair.
  class Node<T> {
    var arg: T
    var next: Node?<T>

    constructor (a: T)
      ensures arg == a && next == null
    {
      arg := a;
      next := null;
    }
  }

  class TaskQueue<T> {
    var head: Node?<T>
    var tail: Node?<T>
    var taskCount: int
    ghost var nodes: seq<Node<T>>
    ghost var contents: seq<T>  // the queued arguments, oldest first

    ghost predicate Valid()
      reads this, nodes
    {
      && taskCount == |nodes| == |contents|
      && (forall i :: 0 <= i < |nodes| ==> nodes[i].arg == contents[i])
      && Linked(nodes)
      && (if nodes == [] then head == null && tail == null
          else head == nodes[0] && tail == nodes[|nodes| - 1])
    }

    // The nodes are distinct, and each links to the next one.
    static ghost predicate Linked(ns: seq<Node<T>>)
      reads ns
    {
      && (forall i, j :: 0 <= i < j < |ns| ==> ns[i] != ns[j])
      && (forall i :: 0 <= i < |ns| ==> ns[i].next == Successor(ns, i))
    }

    static ghost function Successor(ns: seq<Node<T>>, i: nat): Node?<T>
      requires i < |ns|
    {
      if i + 1 < |ns| then ns[i + 1] else null
    }

    constructor ()
      ensures Valid() && contents == []
    {
      head, tail, taskCount, nodes, contents := null, null, 0, [], [];
    }

    // The body of pool_submit between lock and signal.
    method Append(arg: T)
      requires Valid()
      modifies this, nodes
      ensures Valid() && contents == old(contents) + [arg]
      ensures |nodes| == |old(nodes)| + 1 && nodes[..|nodes| - 1] == old(nodes) && fresh(nodes[|nodes| - 1])
    {
      var task := new Node(arg);
      if tail != null {
        tail.next := task;
      } else {
        head := task;
      }
      tail := task;
      taskCount := taskCount + 1;
      nodes := nodes + [task];
      contents := contents + [arg];
    }

    // The dequeue of worker.
    method Take() returns (task: Node<T>)
      requires Valid() && head != null
      modifies this
      ensures Valid() && old(contents) == [task.arg] + contents
      ensures task == old(head) && nodes == old(nodes)[1..]
    {
      task := head;
      assert task == nodes[0] && task.next == Successor(nodes, 0);
      head := task.next;
      if head == null {
        tail := null;
      }
      taskCount := taskCount - 1;
      nodes := nodes[1..];
      contents := contents[1..];
    }

    // The cleanup loop of pool_destroy: every remaining node is released exactly once, in order.
    method Release() returns (freed: seq<Node<T>>)
      requires Valid()
      ensures freed == nodes
    {
      freed := [];
      var t := head;
      while t != null
        invariant |freed| <= |nodes| && freed == nodes[..|freed|]
        invariant t == if |freed| < |nodes| then nodes[|freed|] else null
        decreases |nodes| - |freed|
      {
        assert t == nodes[|freed|] && nodes[|freed|].next == Successor(nodes, |freed|);
        var next := t.next;
        freed := freed + [t];
        t := next;
      }
    }
  }
}
