// codes/ch14.cpp: a Task class with copy and move construction and move
// assignment, where a moved-from Task is marked with id -1; and the
// constexpr `square`.
module MoveSemantics {
  import opened SeqOps

  /** The id a moved-from Task is left with. */
  const MovedFrom: int := -1

  class Task {
    var id: int

    /** Task(int id) */
    constructor (id: int)
      ensures this.id == id
    {
      this.id := id;
    }

    /** Task(const Task& other): the copy gets the same id; `other` is
        outside this constructor's frame, so it is unchanged. */
    constructor Copy(other: Task)
      ensures id == other.id
    {
      id := other.id;
    }

    /** Task(Task&& other): the new Task takes the id, `other` is marked. */
    constructor Move(other: Task)
      modifies other
      ensures id == old(other.id)
      ensures other.id == MovedFrom
    {
      id := other.id;
      other.id := MovedFrom;
    }

    /** operator=(Task&& other): from another Task, take its id and mark it;
        from itself, change nothing. */
    method MoveAssign(other: Task)
      modifies this, other
      ensures other != this ==> id == old(other.id) && other.id == MovedFrom
      ensures other == this ==> id == old(id)
    {
      if this != other {
        id := other.id;
        other.id := MovedFrom;
      }
    }

    function GetId(): int
      reads this
    {
      id
    }
  }

  /** Lines 69-72: `task(1)`, `taskNext(2)`, `taskMove = std::move(task)`,
      `taskNext = std::move(taskMove)`; the ids afterwards. */
  method MoveDemo() returns (taskId: int, taskMoveId: int, taskNextId: int)
    ensures taskId == MovedFrom && taskMoveId == MovedFrom && taskNextId == 1
  {
    var task := new Task(1);
    var taskNext := new Task(2);
    var taskMove := new Task.Move(task);
    taskNext.MoveAssign(taskMove);
    taskId, taskMoveId, taskNextId := task.GetId(), taskMove.GetId(), taskNext.GetId();
  }

  /** A move assignment from another object followed by a self move
      assignment leaves the same state as the move assignment alone. */
  method SelfMoveAfterMove(a: Task, b: Task)
    requires a != b
    modifies a, b
    ensures a.id == old(b.id) && b.id == MovedFrom
  {
    a.MoveAssign(b);
    a.MoveAssign(a);
  }

  /** `static_assert(square(5) == 25)` */
  lemma SquareOfFive()
    ensures Square(5) == 25
  {
  }
}
