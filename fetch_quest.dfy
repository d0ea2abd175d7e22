/**
 * The fetch quest record: an immutable quest whose only mutable field is the
 * return point, and whose status is derived by scanning the task graph.
 */
module FetchQuests {

  /** The status the host's quest framework reports for one task. */
  datatype Status = Pending | Active | Succeeded | Failed

  /** A handle on a host entity (players, quest givers, items). */
  datatype EntityRef = EntityRef(handle: nat)

  /** A world position; the model never computes with its coordinates. */
  datatype Position = Position(x: real, y: real, z: real)

  /**
   * The task kinds a quest item can carry. The three the fetch quest knows
   * keep their constructor parameters; every other kind of task is OtherTask.
   */
  datatype Task =
    | CollectBlocks(id: string, amount: int, itemId: string)
    | GoToBeacon(id: string, targetBeaconId: string)
    | TimeConstraint(id: string, targetTime: real)
    | OtherTask(id: string, kind: string)

  /** One task of a task graph together with the status the host gives it. */
  datatype TaskEntry = TaskEntry(task: Task, status: Status)

  /** A status that ends the scan of getStatus. */
  predicate Decisive(s: Status) {
    s == Failed || s == Active
  }

  /**
   * The status of a quest whose task graph iterates as `graph`: the status of
   * the first FAILED or ACTIVE task, or SUCCEEDED when there is none.
   */
  function QuestStatus(graph: seq<TaskEntry>): (r: Status)
    ensures r != Pending
    ensures r == Succeeded <==> forall i :: 0 <= i < |graph| ==> !Decisive(graph[i].status)
  {
    if graph == [] then Succeeded
    else if graph[0].status == Failed then Failed
    else if graph[0].status == Active then Active
    else QuestStatus(graph[1..])
  }

  /** The first decisive task decides the status, whatever follows it. */
  lemma {:induction false} FirstDecisiveDecides(graph: seq<TaskEntry>, i: nat)
    requires i < |graph| && Decisive(graph[i].status)
    requires forall j :: 0 <= j < i ==> !Decisive(graph[j].status)
    ensures QuestStatus(graph) == graph[i].status
  {
    if i > 0 {
      FirstDecisiveDecides(graph[1..], i - 1);
    }
  }

  /** A status other than SUCCEEDED always comes from the first decisive task. */
  lemma {:induction false} StatusHasFirstDecisive(graph: seq<TaskEntry>)
    requires QuestStatus(graph) != Succeeded
    ensures exists i :: 0 <= i < |graph| && graph[i].status == QuestStatus(graph)
                        && forall j :: 0 <= j < i ==> !Decisive(graph[j].status)
  {
    if !Decisive(graph[0].status) {
      StatusHasFirstDecisive(graph[1..]);
      var i :| 0 <= i < |graph[1..]| && graph[1..][i].status == QuestStatus(graph[1..])
               && forall j :: 0 <= j < i ==> !Decisive(graph[1..][j].status);
      assert graph[i + 1].status == QuestStatus(graph);
      assert forall j :: 0 <= j < i + 1 ==> !Decisive(graph[j].status) by {
        forall j | 0 <= j < i + 1 ensures !Decisive(graph[j].status) {
          if j > 0 { assert graph[j] == graph[1..][j - 1]; }
        }
      }
    }
  }

  /**
   * The scan of a concatenated graph: the first part decides unless it has no
   * decisive task, in which case the second part does.
   */
  lemma {:induction false} StatusOfConcat(a: seq<TaskEntry>, b: seq<TaskEntry>)
    ensures QuestStatus(a + b) == if QuestStatus(a) == Succeeded then QuestStatus(b) else QuestStatus(a)
  {
    if a == [] {
      assert a + b == b;
    } else {
      assert (a + b)[0] == a[0];
      assert (a + b)[1..] == a[1..] + b;
      StatusOfConcat(a[1..], b);
    }
  }

  /** The result depends on order: an ACTIVE task ahead of a FAILED one wins. */
  lemma ActiveBeforeFailed(first: Task, second: Task)
    ensures QuestStatus([TaskEntry(first, Active), TaskEntry(second, Failed)]) == Active
    ensures QuestStatus([TaskEntry(second, Failed), TaskEntry(first, Active)]) == Failed
  {
  }

  /**
   * The host's task graph: its tasks in iteration order, each with the status
   * the host currently gives it. The host advances the statuses; this model
   * only adds tasks and reads them.
   */
  class TaskGraph {
    var entries: seq<TaskEntry>

    constructor ()
      ensures entries == []
    {
      entries := [];
    }

    /** Adds a task; the status it starts with is decided by the host. */
    method Add(task: Task, hostStatus: Status)
      modifies this
      ensures entries == old(entries) + [TaskEntry(task, hostStatus)]
    {
      entries := entries + [TaskEntry(task, hostStatus)];
    }
  }

  /**
   * A fetch quest. Entity, short name, description and task graph are fixed
   * at construction (the getters of the source are these constant fields);
   * the return point is the one field that can be set again.
   */
  class FetchQuest {
    const entity: EntityRef
    const shortName: string
    const description: string
    const tasks: TaskGraph
    var returnPoint: Position

    constructor (entity: EntityRef, returnPoint: Position, shortName: string, description: string, tasks: TaskGraph)
      ensures this.entity == entity && this.returnPoint == returnPoint
      ensures this.shortName == shortName && this.description == description
      ensures this.tasks == tasks
    {
      this.entity := entity;
      this.returnPoint := returnPoint;
      this.shortName := shortName;
      this.description := description;
      this.tasks := tasks;
    }

    method GetReturnPoint() returns (p: Position)
      ensures p == returnPoint
    {
      p := returnPoint;
    }

    method SetReturnPoint(p: Position)
      modifies this`returnPoint
      ensures returnPoint == p
    {
      returnPoint := p;
    }

    /**
     * Scans the task graph in iteration order and stops at the first FAILED
     * or ACTIVE task. Nothing is modified: the quest and its graph are only read.
     */
    method GetStatus() returns (s: Status)
      ensures s == QuestStatus(tasks.entries)
    {
      var graph := tasks.entries;
      var i := 0;
      while i < |graph|
        invariant 0 <= i <= |graph|
        invariant QuestStatus(graph) == QuestStatus(graph[i..])
      {
        var taskStatus := graph[i].status;
        if taskStatus == Failed {
          return Failed;
        }
        if taskStatus == Active {
          return Active;
        }
        assert graph[i..][1..] == graph[i + 1..];
        i := i + 1;
      }
      return Succeeded;
    }

    /** The quest's printable form: the short name wrapped in "FetchQuest [" and "]". */
    function ToString(): (s: string)
      ensures |s| == |shortName| + 13
      ensures s[..12] == "FetchQuest [" && s[|s| - 1] == ']'
      ensures s[12..|s| - 1] == shortName
    {
      "FetchQuest [" + shortName + "]"
    }
  }
}
