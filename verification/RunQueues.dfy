/** The linked list of runnable tasks of one CPU. */
module RunQueues {

  class Task {
    const id: nat
    var next: Task?

    constructor (id: nat)
      ensures this.id == id && next == null
    {
      this.id := id;
      next := null;
    }
  }

  class RunQueue {
    var head: Task?
    var tail: Task?
    var count: int
    ghost var contents: seq<Task>

    /** The node after position `i`. */
    ghost function After(i: nat): Task?
      requires i < |contents|
      reads this
    {
      if i + 1 < |contents| then contents[i + 1] else null
    }

    /** The list from `head` along `next` is `contents`, without repetition; `tail` is its last node and
        `count` its length. */
    ghost predicate Valid()
      reads this, contents
    {
      && count == |contents|
      && (forall i, j :: 0 <= i < j < |contents| ==> contents[i] != contents[j])
      && (forall i: nat :: i < |contents| ==> contents[i].next == After(i))
      && head == (if contents == [] then null else contents[0])
      && tail == (if contents == [] then null else contents[|contents| - 1])
    }

    constructor ()
      ensures Valid() && contents == []
    {
      head, tail, count, contents := null, null, 0, [];
    }

    /** A task that is on no queue goes to the end. Only the old last node is touched besides. */
    method Enqueue(task: Task)
      requires Valid() && task !in contents
      modifies this, task, tail
      ensures Valid() && contents == old(contents) + [task]
    {
      task.next := null;
      if tail != null {
        tail.next := task;
        tail := task;
      } else {
        head, tail := task, task;
      }
      count := count + 1;
      contents := contents + [task];
    }

    /** The first task leaves the queue; nothing but the queue's own fields is written. */
    method Dequeue() returns (task: Task?)
      requires Valid()
      modifies this
      ensures Valid()
      ensures old(contents) == [] ==> task == null && contents == []
      ensures old(contents) != [] ==> task == old(contents)[0] && contents == old(contents)[1..] && task !in contents
    {
      if head == null {
        return null;
      }
      task := head;
      head := task.next;
      if head == null {
        tail := null;
      }
      count := count - 1;
      contents := contents[1..];
    }
  }
}
