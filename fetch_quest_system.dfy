/**
 * The fetch quest system: a world-time counter that periodically gives every
 * unmarked church a quest point, the copy and activation of a quest's tasks
 * when the quest is taken, the guard of the return-home handler, and the
 * payout when a fetch quest completes.
 *
 * The host engine is replaced by records and parameters: buildings are
 * records in an array, inventory slots a sequence, the presence of a prefab
 * a boolean, and everything the system asks the host to do (create an
 * entity, send an event, remove an item) an entry appended to a ghost log.
 */
module FetchQuestSystems {
  import opened Wrappers
  import opened FetchQuests

  const HomeTaskId := "returnHome"
  const FetchQuestId := "FetchQuest"
  const ItemId := "WildAnimals:Meat"
  const Reward := 50
  const RegenCycles := 20
  const ChurchName := "simplechurch"
  /** The one quest item a new quest point offers. */
  const QuestCard := "card"

  /*
   * The world-time counter.
   */

  /** The counter after one world-time event: incremented, and reset once it exceeds RegenCycles. */
  function NextCycles(cycles: int): (r: int)
    ensures 0 <= cycles <= RegenCycles ==> 0 <= r <= RegenCycles
    ensures r == 0 || r == cycles + 1
  {
    if cycles + 1 > RegenCycles then 0 else cycles + 1
  }

  /** True when the event that finds the counter at `cycles` runs the church pass. */
  predicate PassFires(cycles: int) {
    cycles + 1 > RegenCycles
  }

  /** The counter after `events` world-time events, starting from 0. */
  function CyclesAfter(events: nat): int {
    if events == 0 then 0 else NextCycles(CyclesAfter(events - 1))
  }

  /** The remainder modulo 21 is the unique r in [0, 21) with n = 21 q + r. */
  lemma RemainderOf(n: nat, q: int, r: int)
    requires n == (RegenCycles + 1) * q + r && 0 <= r < RegenCycles + 1
    ensures n % (RegenCycles + 1) == r
  {
  }

  /** The counter counts events modulo 21. */
  lemma {:induction false} CyclesAfterIsRemainder(events: nat)
    ensures CyclesAfter(events) == events % (RegenCycles + 1)
  {
    if events > 0 {
      CyclesAfterIsRemainder(events - 1);
      var q, m := (events - 1) / (RegenCycles + 1), (events - 1) % (RegenCycles + 1);
      assert events == (RegenCycles + 1) * q + m + 1;
      if m == RegenCycles {
        RemainderOf(events, q + 1, 0);
      } else {
        RemainderOf(events, q, m + 1);
      }
    }
  }

  /** Event number `events + 1` runs the church pass exactly when it is a multiple of 21. */
  lemma PassFiresEvery21st(events: nat)
    ensures PassFires(CyclesAfter(events)) <==> (events + 1) % (RegenCycles + 1) == 0
  {
    CyclesAfterIsRemainder(events);
    CyclesAfterIsRemainder(events + 1);
  }

  /*
   * The church pass.
   */

  /** A building's parcel rectangle. */
  datatype Rect = Rect(minX: int, minY: int, sizeX: int, sizeY: int)

  /**
   * What the pass reads of a building: its name, whether it already refers to
   * a quest point, its parcel and the parcel's height.
   */
  datatype Building = Building(name: string, hasQuestPoint: bool, parcel: Rect, height: int)

  /** An integer position (the source converts it to floats). */
  datatype Point3 = Point3(x: int, y: int, z: int)

  /** A request the system makes of the host, in the order it makes them. */
  datatype Effect =
    | SpawnQuestPoint(building: nat, at: Point3, questItems: seq<string>)
    | StartTask(quest: Quest, task: Task)
    | Destroy(entity: EntityRef)
    | CreateBeacon(point: Position)
    | AddBeaconOverlay(character: EntityRef)
    | RemoveItem(owner: EntityRef, item: Slot, amount: int)
    | WalletTransaction(target: EntityRef, amount: int)
    | RemoveBeaconOverlay(character: EntityRef)

  /** A quest of the player: a fetch quest object, or any other quest, known by handle and short name. */
  datatype Quest = Fetch(fetch: FetchQuest) | OtherQuest(handle: nat, name: string)

  /** An inventory slot: empty, or an item with the name of its parent prefab. */
  datatype Slot = NullItem | Item(entity: EntityRef, prefabName: string)

  /** A building the pass gives a quest point: a church that has none yet. */
  predicate Qualifies(b: Building) {
    b.name == ChurchName && !b.hasQuestPoint
  }

  /** One building after the pass has visited it. */
  function Visit(b: Building, questPointPrefab: bool): Building {
    if questPointPrefab && Qualifies(b) then b.(hasQuestPoint := true) else b
  }

  /** The buildings after a whole pass. */
  function ChurchPass(buildings: seq<Building>, questPointPrefab: bool): (r: seq<Building>)
    ensures |r| == |buildings|
  {
    seq(|buildings|, i requires 0 <= i < |buildings| => Visit(buildings[i], questPointPrefab))
  }

  /** Java's `n / 2` on an int, which truncates toward zero. */
  function JavaHalf(n: int): (r: int)
    ensures 0 <= n ==> 0 <= r && 2 * r <= n < 2 * r + 2
    ensures n < 0 ==> r <= 0 && 2 * r - 2 < n <= 2 * r
  {
    if n >= 0 then n / 2 else -((-n) / 2)
  }

  /** Where a church's quest point appears: the middle of its parcel, two blocks above it. */
  function SpawnPosition(b: Building): Point3 {
    Point3(b.parcel.minX + JavaHalf(b.parcel.sizeX), b.height + 2, b.parcel.minY + JavaHalf(b.parcel.sizeY))
  }

  /** For a parcel of positive size the quest point lies inside it, two blocks above it. */
  lemma SpawnInsideParcel(b: Building)
    requires b.parcel.sizeX > 0 && b.parcel.sizeY > 0
    ensures var p := SpawnPosition(b);
            && b.parcel.minX <= p.x < b.parcel.minX + b.parcel.sizeX
            && b.parcel.minY <= p.z < b.parcel.minY + b.parcel.sizeY
            && p.y == b.height + 2
  {
  }

  /** The quest point the pass creates for building number `i`. */
  function Spawn(i: nat, b: Building): Effect {
    SpawnQuestPoint(i, SpawnPosition(b), [QuestCard])
  }

  /** The quest points a pass over `buildings` creates, in building order. */
  function QuestPointSpawns(buildings: seq<Building>, questPointPrefab: bool): (r: seq<Effect>)
    ensures |r| <= |buildings|
  {
    if buildings == [] then []
    else
      var last := |buildings| - 1;
      QuestPointSpawns(buildings[..last], questPointPrefab)
      + if questPointPrefab && Qualifies(buildings[last]) then [Spawn(last, buildings[last])] else []
  }

  /**
   * A pass creates a quest point for a building exactly when the prefab
   * exists and the building qualifies, and at the position of that building.
   */
  lemma {:induction false} SpawnsAreQualifying(buildings: seq<Building>, questPointPrefab: bool)
    ensures forall e :: e in QuestPointSpawns(buildings, questPointPrefab) ==>
              e.SpawnQuestPoint? && e.building < |buildings| && questPointPrefab
              && Qualifies(buildings[e.building]) && e == Spawn(e.building, buildings[e.building])
    ensures forall i :: 0 <= i < |buildings| && questPointPrefab && Qualifies(buildings[i]) ==>
              Spawn(i, buildings[i]) in QuestPointSpawns(buildings, questPointPrefab)
  {
    if buildings != [] {
      var last := |buildings| - 1;
      var prefix := buildings[..last];
      SpawnsAreQualifying(prefix, questPointPrefab);
      assert forall i :: 0 <= i < last ==> prefix[i] == buildings[i];
    }
  }

  /** Quest point requests for buildings below `n`, in strictly increasing building order. */
  predicate InBuildingOrder(r: seq<Effect>, n: nat) {
    && (forall i :: 0 <= i < |r| ==> r[i].SpawnQuestPoint? && r[i].building < n)
    && (forall i, j :: 0 <= i < j < |r| ==> r[i].building < r[j].building)
  }

  /**
   * A pass creates its quest points in strictly increasing building order,
   * so no building gets more than one quest point from a pass.
   */
  lemma {:induction false} SpawnsInBuildingOrder(buildings: seq<Building>, questPointPrefab: bool)
    ensures InBuildingOrder(QuestPointSpawns(buildings, questPointPrefab), |buildings|)
  {
    if buildings != [] {
      var last := |buildings| - 1;
      var prefix := buildings[..last];
      SpawnsInBuildingOrder(prefix, questPointPrefab);
      var front := QuestPointSpawns(prefix, questPointPrefab);
      var tail := if questPointPrefab && Qualifies(buildings[last]) then [Spawn(last, buildings[last])] else [];
      assert QuestPointSpawns(buildings, questPointPrefab) == front + tail;
      assert InBuildingOrder(tail, |buildings|);
    }
  }

  /**
   * A pass marks exactly the qualifying buildings when the prefab exists, and
   * changes nothing else about any building.
   */
  lemma PassMarksQualifying(buildings: seq<Building>, questPointPrefab: bool)
    ensures forall i :: 0 <= i < |buildings| ==>
              var b := ChurchPass(buildings, questPointPrefab)[i];
              && (b.hasQuestPoint <==> buildings[i].hasQuestPoint || (questPointPrefab && Qualifies(buildings[i])))
              && b.(hasQuestPoint := buildings[i].hasQuestPoint) == buildings[i]
  {
  }

  /** Without the quest point prefab a pass marks nothing and creates nothing. */
  lemma {:induction false} NoPrefabNoChange(buildings: seq<Building>)
    ensures ChurchPass(buildings, false) == buildings
    ensures QuestPointSpawns(buildings, false) == []
  {
    if buildings != [] {
      NoPrefabNoChange(buildings[..|buildings| - 1]);
    }
  }

  /**
   * After a pass with the prefab present no building qualifies any more: a
   * later pass creates no quest point and marks nothing, so no church ever
   * gets a second quest point.
   */
  lemma NoSecondQuestPoint(buildings: seq<Building>, questPointPrefab: bool)
    ensures var after := ChurchPass(buildings, true);
            && QuestPointSpawns(after, questPointPrefab) == []
            && ChurchPass(after, questPointPrefab) == after
  {
    var after := ChurchPass(buildings, true);
    NoneQualifyNoSpawns(after, questPointPrefab);
  }

  /** A pass over buildings none of which qualifies creates no quest point. */
  lemma {:induction false} NoneQualifyNoSpawns(buildings: seq<Building>, questPointPrefab: bool)
    requires forall i :: 0 <= i < |buildings| ==> !Qualifies(buildings[i])
    ensures QuestPointSpawns(buildings, questPointPrefab) == []
  {
    if buildings != [] {
      NoneQualifyNoSpawns(buildings[..|buildings| - 1], questPointPrefab);
    }
  }

  /*
   * Copying and activating a quest's tasks.
   */

  /** The kinds of task the copy keeps. */
  predicate Known(t: Task) {
    !t.OtherTask?
  }

  /** The tasks of `tasks` the copy keeps, in their original order. */
  function KnownTasks(tasks: seq<Task>): (r: seq<Task>)
    ensures |r| <= |tasks|
  {
    if tasks == [] then []
    else
      var last := |tasks| - 1;
      KnownTasks(tasks[..last]) + if Known(tasks[last]) then [tasks[last]] else []
  }

  /** A task is copied exactly when it is among the tasks and of a known kind. */
  lemma {:induction false} KnownTasksMembers(tasks: seq<Task>)
    ensures forall t :: t in KnownTasks(tasks) <==> t in tasks && Known(t)
  {
    if tasks != [] {
      var last := |tasks| - 1;
      KnownTasksMembers(tasks[..last]);
      assert tasks == tasks[..last] + [tasks[last]];
    }
  }

  /** Copying a concatenation copies each part in turn: the order is kept. */
  lemma {:induction false} KnownTasksConcat(a: seq<Task>, b: seq<Task>)
    ensures KnownTasks(a + b) == KnownTasks(a) + KnownTasks(b)
  {
    if b != [] {
      var last := |b| - 1;
      assert (a + b)[..|a + b| - 1] == a + b[..last];
      KnownTasksConcat(a, b[..last]);
    } else {
      assert a + b == a;
    }
  }

  /** Tasks all of known kinds are copied unchanged. */
  lemma {:induction false} KnownTasksKeepsAllKnown(tasks: seq<Task>)
    requires forall i :: 0 <= i < |tasks| ==> Known(tasks[i])
    ensures KnownTasks(tasks) == tasks
  {
    if tasks != [] {
      var last := |tasks| - 1;
      var prefix := tasks[..last];
      assert tasks == prefix + [tasks[last]];
      assert forall i :: 0 <= i < |prefix| ==> prefix[i] == tasks[i];
      KnownTasksKeepsAllKnown(prefix);
      assert Known(tasks[last]);
    }
  }

  /** The tasks of a task graph, in iteration order. */
  function TasksOf(entries: seq<TaskEntry>): (r: seq<Task>)
    ensures |r| == |entries| && forall i :: 0 <= i < |entries| ==> r[i] == entries[i].task
  {
    seq(|entries|, i requires 0 <= i < |entries| => entries[i].task)
  }

  /** The last task that is not PENDING, if any. */
  function LastStarted(entries: seq<TaskEntry>): (r: Option<Task>)
    ensures r == None <==> forall i :: 0 <= i < |entries| ==> entries[i].status == Pending
  {
    if entries == [] then None
    else
      var last := |entries| - 1;
      if entries[last].status != Pending then Some(entries[last].task)
      else
        assert forall j :: 0 <= j < last ==> entries[..last][j] == entries[j];
        LastStarted(entries[..last])
  }

  /** The task LastStarted picks is not PENDING, and every task after it is. */
  lemma {:induction false} LastStartedIsLast(entries: seq<TaskEntry>)
    requires LastStarted(entries).Some?
    ensures exists i :: 0 <= i < |entries| && entries[i].status != Pending
                        && entries[i].task == LastStarted(entries).value
                        && forall j :: i < j < |entries| ==> entries[j].status == Pending
  {
    var last := |entries| - 1;
    if entries[last].status == Pending {
      var prefix := entries[..last];
      assert LastStarted(entries) == LastStarted(prefix);
      LastStartedIsLast(prefix);
      var i :| 0 <= i < |prefix| && prefix[i].status != Pending && prefix[i].task == LastStarted(prefix).value
               && forall j :: i < j < |prefix| ==> prefix[j].status == Pending;
      assert entries[i] == prefix[i];
      forall j | i < j < |entries|
        ensures entries[j].status == Pending
      {
        if j < last {
          assert entries[j] == prefix[j];
        }
      }
    }
  }

  /**
   * The active task list after the tasks of `entries` have been started for
   * `quest`: keyed by quest, so it keeps the last task started.
   */
  function ActiveAfter(active: map<Quest, Task>, quest: Quest, entries: seq<TaskEntry>): map<Quest, Task> {
    match LastStarted(entries)
    case None => active
    case Some(t) => active[quest := t]
  }

  /**
   * Starting the tasks of a quest changes only that quest's entry: when some
   * task is not PENDING the entry is the last such task, otherwise nothing
   * changes.
   */
  lemma ActiveIsLastStarted(active: map<Quest, Task>, quest: Quest, entries: seq<TaskEntry>)
    ensures forall k :: k != quest ==> (k in ActiveAfter(active, quest, entries) <==> k in active)
    ensures forall k :: k != quest && k in active ==> ActiveAfter(active, quest, entries)[k] == active[k]
    ensures (forall i :: 0 <= i < |entries| ==> entries[i].status == Pending) ==> ActiveAfter(active, quest, entries) == active
    ensures (exists i :: 0 <= i < |entries| && entries[i].status != Pending) ==>
              && quest in ActiveAfter(active, quest, entries)
              && exists i :: 0 <= i < |entries| && entries[i].status != Pending
                             && ActiveAfter(active, quest, entries)[quest] == entries[i].task
                             && forall j :: i < j < |entries| ==> entries[j].status == Pending
  {
    if LastStarted(entries).Some? {
      LastStartedIsLast(entries);
    }
  }

  /** The StartTaskEvents sent for a quest: one per task that is not PENDING, in order. */
  function Started(quest: Quest, entries: seq<TaskEntry>): seq<Effect> {
    if entries == [] then []
    else
      var last := |entries| - 1;
      Started(quest, entries[..last])
      + if entries[last].status != Pending then [StartTask(quest, entries[last].task)] else []
  }

  /** Every task that is not PENDING gets a StartTaskEvent and no other does. */
  lemma {:induction false} StartedAreNonPending(quest: Quest, entries: seq<TaskEntry>)
    ensures forall e :: e in Started(quest, entries) ==>
              exists i :: 0 <= i < |entries| && entries[i].status != Pending && e == StartTask(quest, entries[i].task)
    ensures forall i :: 0 <= i < |entries| && entries[i].status != Pending ==>
              StartTask(quest, entries[i].task) in Started(quest, entries)
  {
    if entries != [] {
      var last := |entries| - 1;
      var prefix := entries[..last];
      StartedAreNonPending(quest, prefix);
      var added := if entries[last].status != Pending then [StartTask(quest, entries[last].task)] else [];
      assert Started(quest, entries) == Started(quest, prefix) + added;
      forall e | e in Started(quest, entries)
        ensures exists i :: 0 <= i < |entries| && entries[i].status != Pending && e == StartTask(quest, entries[i].task)
      {
        if e in Started(quest, prefix) {
          var i :| 0 <= i < |prefix| && prefix[i].status != Pending && e == StartTask(quest, prefix[i].task);
          assert entries[i] == prefix[i];
        } else {
          assert e in added;
        }
      }
      forall i | 0 <= i < |entries| && entries[i].status != Pending
        ensures StartTask(quest, entries[i].task) in Started(quest, entries)
      {
        if i < last {
          assert prefix[i] == entries[i];
        }
      }
    }
  }

  /**
   * Some StartTaskEvent is sent exactly when some task is not PENDING, and the
   * last one sent is for the task the active task list keeps.
   */
  lemma {:induction false} StartedEndsWithLast(quest: Quest, entries: seq<TaskEntry>)
    ensures Started(quest, entries) == [] <==> LastStarted(entries) == None
    ensures LastStarted(entries).Some? ==>
              Started(quest, entries)[|Started(quest, entries)| - 1] == StartTask(quest, LastStarted(entries).value)
  {
    if entries != [] {
      var last := |entries| - 1;
      var prefix := entries[..last];
      StartedEndsWithLast(quest, prefix);
      if entries[last].status == Pending {
        assert Started(quest, entries) == Started(quest, prefix);
        assert LastStarted(entries) == LastStarted(prefix);
      }
    }
  }

  /*
   * The return handler and the completion handler.
   */

  /** The short name of a quest. */
  function ShortName(q: Quest): string {
    match q
    case Fetch(f) => f.shortName
    case OtherQuest(_, name) => name
  }

  /** The guard of the return handler: a quest named "FetchQuest" and a task "returnHome". */
  predicate IsReturnHome(q: Quest, task: Task) {
    ShortName(q) == FetchQuestId && task.id == HomeTaskId
  }

  /** What a handler did with its event. */
  datatype HandlerOutcome =
    | Ignored
    | Handled
    /** the cast to a fetch quest failed: the quest passed the guard but is another kind of quest */
    | ClassCastError

  /** ASCII upper case; other characters are left as they are. */
  function Upper(c: char): (r: char)
    ensures 'a' <= c <= 'z' ==> 'A' <= r <= 'Z'
    ensures !('a' <= c <= 'z') ==> r == c
  {
    if 'a' <= c <= 'z' then (c as int - 'a' as int + 'A' as int) as char else c
  }

  /** Java's equalsIgnoreCase, for ASCII text. */
  predicate EqualsIgnoreCase(a: string, b: string) {
    |a| == |b| && forall i :: 0 <= i < |a| ==> Upper(a[i]) == Upper(b[i])
  }

  /** Comparing ignoring case is an equivalence: reflexive, symmetric and transitive. */
  lemma EqualsIgnoreCaseFacts(a: string, b: string, c: string)
    ensures EqualsIgnoreCase(a, a)
    ensures EqualsIgnoreCase(a, b) <==> EqualsIgnoreCase(b, a)
    ensures EqualsIgnoreCase(a, b) && EqualsIgnoreCase(b, c) ==> EqualsIgnoreCase(a, c)
  {
  }

  /** Names that differ only in case match; names that differ in a letter do not. */
  lemma EqualsIgnoreCaseExamples()
    ensures EqualsIgnoreCase("Meat", "mEAT")
    ensures !EqualsIgnoreCase("Meat", "Meal")
  {
    assert Upper('m') == 'M' && Upper('E') == 'E' && Upper('e') == 'E';
    assert Upper('A') == 'A' && Upper('a') == 'A' && Upper('T') == 'T' && Upper('t') == 'T';
    assert Upper("Meat"[3]) != Upper("Meal"[3]);
  }

  /** A slot that holds the meat item. */
  predicate IsMeat(s: Slot) {
    s.Item? && EqualsIgnoreCase(ItemId, s.prefabName)
  }

  /** The first slot holding meat, or NullItem when there is none. */
  function FirstMeat(slots: seq<Slot>): (r: Slot)
    ensures r == NullItem <==> forall i :: 0 <= i < |slots| ==> !IsMeat(slots[i])
    ensures r != NullItem ==> IsMeat(r) && r in slots
  {
    if slots == [] then NullItem
    else if IsMeat(slots[0]) then slots[0]
    else
      assert forall j :: 0 <= j < |slots| - 1 ==> slots[1..][j] == slots[j + 1];
      FirstMeat(slots[1..])
  }

  /** The slot FirstMeat picks comes before every other slot holding meat. */
  lemma {:induction false} FirstMeatIsFirst(slots: seq<Slot>)
    requires FirstMeat(slots) != NullItem
    ensures exists i :: 0 <= i < |slots| && slots[i] == FirstMeat(slots)
                        && forall j :: 0 <= j < i ==> !IsMeat(slots[j])
  {
    if !IsMeat(slots[0]) {
      var rest := slots[1..];
      FirstMeatIsFirst(rest);
      var i :| 0 <= i < |rest| && rest[i] == FirstMeat(rest) && forall j :: 0 <= j < i ==> !IsMeat(rest[j]);
      assert slots[i + 1] == rest[i];
      assert forall j :: 1 <= j < i + 1 ==> slots[j] == rest[j - 1];
    }
  }

  /** The position of the first occurrence of `x` (Java's indexOf, for an element that is present). */
  function IndexOf(s: seq<Quest>, x: Quest): (i: nat)
    requires x in s
    ensures i < |s| && s[i] == x && x !in s[..i]
  {
    if s[0] == x then 0
    else
      var i := IndexOf(s[1..], x);
      assert s[..i + 1] == [s[0]] + s[1..][..i];
      i + 1
  }

  /** A sequence with the first occurrence of `x` taken out, as Java's List.remove(Object). */
  function RemoveFirst(s: seq<Quest>, x: Quest): (r: seq<Quest>)
    ensures |r| == if x in s then |s| - 1 else |s|
    ensures x !in s ==> r == s
    ensures x in s ==> exists i :: 0 <= i < |s| && s[i] == x && x !in s[..i] && r == s[..i] + s[i + 1..]
  {
    if x in s then
      var i := IndexOf(s, x);
      assert 0 <= i < |s| && s[i] == x && x !in s[..i];
      s[..i] + s[i + 1..]
    else s
  }

  /** Removing takes out exactly one copy of `x` when there is one, and nothing else. */
  lemma RemoveFirstMultiset(s: seq<Quest>, x: Quest)
    ensures multiset(RemoveFirst(s, x)) == multiset(s) - multiset{x}
  {
    if x in s {
      var i := IndexOf(s, x);
      assert s == s[..i] + [x] + s[i + 1..];
    }
  }

  /** The value of `key`, or `default` when the map has none (Java's getOrDefault). */
  function GetOrDefault(m: map<string, int>, key: string, default: int): int {
    if key in m then m[key] else default
  }

  /*
   * The host's components and the system.
   */

  /** A quest item as the quest point offers it: its name, description and tasks. */
  datatype QuestItem = QuestItem(shortName: string, description: string, tasks: seq<Task>)

  /** A player's quest component: the quests taken and the active task per quest. */
  class PlayerQuests {
    var questList: seq<Quest>
    var activeTaskList: map<Quest, Task>

    constructor ()
      ensures questList == [] && activeTaskList == map[]
    {
      questList := [];
      activeTaskList := map[];
    }
  }

  /** The entries the copy puts into the quest's own task graph, in order. */
  function Copied(tasks: seq<Task>, hostStatus: Task -> Status): seq<TaskEntry> {
    if tasks == [] then []
    else
      var last := |tasks| - 1;
      Copied(tasks[..last], hostStatus)
        + if Known(tasks[last]) then [TaskEntry(tasks[last], hostStatus(tasks[last]))] else []
  }

  /** The copy holds exactly the tasks of known kinds, in order, each with the host's status. */
  lemma {:induction false} CopiedHoldsKnownTasks(tasks: seq<Task>, hostStatus: Task -> Status)
    ensures TasksOf(Copied(tasks, hostStatus)) == KnownTasks(tasks)
    ensures forall i :: 0 <= i < |Copied(tasks, hostStatus)| ==>
              Copied(tasks, hostStatus)[i].status == hostStatus(Copied(tasks, hostStatus)[i].task)
  {
    if tasks != [] {
      var last := |tasks| - 1;
      var before := Copied(tasks[..last], hostStatus);
      CopiedHoldsKnownTasks(tasks[..last], hostStatus);
      if Known(tasks[last]) {
        var e := TaskEntry(tasks[last], hostStatus(tasks[last]));
        assert Copied(tasks, hostStatus) == before + [e];
        assert TasksOf(before + [e]) == TasksOf(before) + [tasks[last]];
      }
    }
  }

  /**
   * Builds the quest's own task graph: a copy of each task of a known kind, in
   * order, with the status the host gives it.
   */
  method CopyTasks(tasks: seq<Task>, hostStatus: Task -> Status) returns (graph: TaskGraph)
    ensures fresh(graph)
    ensures graph.entries == Copied(tasks, hostStatus)
    ensures TasksOf(graph.entries) == KnownTasks(tasks)
    ensures forall i :: 0 <= i < |graph.entries| ==> graph.entries[i].status == hostStatus(graph.entries[i].task)
  {
    graph := new TaskGraph();
    var i := 0;
    while i < |tasks|
      invariant 0 <= i <= |tasks|
      invariant fresh(graph)
      invariant graph.entries == Copied(tasks[..i], hostStatus)
    {
      var task := tasks[i];
      assert tasks[..i + 1][..i] == tasks[..i];
      var copy: Option<Task> := None;
      match task {
        case CollectBlocks(id, amount, itemId) => copy := Some(CollectBlocks(id, amount, itemId));
        case GoToBeacon(id, targetBeaconId) => copy := Some(GoToBeacon(id, targetBeaconId));
        case TimeConstraint(id, targetTime) => copy := Some(TimeConstraint(id, targetTime));
        case OtherTask(_, _) =>
      }
      assert copy == if Known(task) then Some(task) else None;
      if copy.Some? {
        graph.Add(copy.value, hostStatus(copy.value));
      }
      i := i + 1;
    }
    assert tasks[..i] == tasks;
    CopiedHoldsKnownTasks(tasks, hostStatus);
  }

  /**
   * The fetch quest system. `amounts` is never written after construction;
   * `effects` logs what the system has asked of the host.
   */
  class FetchQuestSystem {
    const amounts: map<string, int>
    var cyclesLeft: int
    ghost var effects: seq<Effect>

    /** The counter stays within [0, RegenCycles] and no removal amount is configured. */
    ghost predicate Valid()
      reads this
    {
      0 <= cyclesLeft <= RegenCycles && amounts == map[]
    }

    constructor ()
      ensures Valid() && cyclesLeft == 0 && effects == []
    {
      amounts := map[];
      cyclesLeft := 0;
      effects := [];
    }

    /**
     * One world-time event: counts it and, on every 21st, gives each church
     * without a quest point a new one when the quest point prefab exists.
     */
    method WorldTimeCycle(buildings: array<Building>, questPointPrefab: bool)
      requires Valid()
      modifies this, buildings
      ensures Valid() && cyclesLeft == NextCycles(old(cyclesLeft))
      ensures buildings[..] == if PassFires(old(cyclesLeft)) then ChurchPass(old(buildings[..]), questPointPrefab)
                               else old(buildings[..])
      ensures effects == old(effects) + if PassFires(old(cyclesLeft)) then QuestPointSpawns(old(buildings[..]), questPointPrefab)
                                        else []
    {
      cyclesLeft := cyclesLeft + 1;
      if cyclesLeft > RegenCycles {
        MarkChurches(buildings, questPointPrefab);
        cyclesLeft := 0;
      }
    }

    /** The church pass: visits every building in order and marks each qualifying one. */
    method MarkChurches(buildings: array<Building>, questPointPrefab: bool)
      modifies this`effects, buildings
      ensures buildings[..] == ChurchPass(old(buildings[..]), questPointPrefab)
      ensures effects == old(effects) + QuestPointSpawns(old(buildings[..]), questPointPrefab)
    {
      ghost var before := buildings[..];
      var i := 0;
      while i < buildings.Length
        invariant 0 <= i <= buildings.Length
        invariant forall j :: 0 <= j < i ==> buildings[j] == Visit(before[j], questPointPrefab)
        invariant forall j :: i <= j < buildings.Length ==> buildings[j] == before[j]
        invariant effects == old(effects) + QuestPointSpawns(before[..i], questPointPrefab)
      {
        assert before[..i + 1][..i] == before[..i];
        ghost var spawned := if questPointPrefab && Qualifies(before[i]) then [Spawn(i, before[i])] else [];
        assert QuestPointSpawns(before[..i + 1], questPointPrefab) == QuestPointSpawns(before[..i], questPointPrefab) + spawned;
        MarkChurch(buildings, i, questPointPrefab);
        i := i + 1;
      }
      assert before[..i] == before;
    }

    /** One step of the church pass: marks building `i` and spawns its quest point when it qualifies. */
    method MarkChurch(buildings: array<Building>, i: nat, questPointPrefab: bool)
      requires i < buildings.Length
      modifies this`effects, buildings
      ensures buildings[i] == Visit(old(buildings[i]), questPointPrefab)
      ensures forall j :: 0 <= j < buildings.Length && j != i ==> buildings[j] == old(buildings[j])
      ensures effects == old(effects)
                         + if questPointPrefab && Qualifies(old(buildings[i])) then [Spawn(i, old(buildings[i]))] else []
    {
      var church := buildings[i];
      if church.name == ChurchName && !church.hasQuestPoint {
        if questPointPrefab {
          var spawnPosition := Point3(church.parcel.minX + JavaHalf(church.parcel.sizeX), church.height + 2,
                                      church.parcel.minY + JavaHalf(church.parcel.sizeY));
          effects := effects + [SpawnQuestPoint(i, spawnPosition, [QuestCard])];
          buildings[i] := church.(hasQuestPoint := true);
        }
      }
    }

    /**
     * Starts every task of the new quest that is not PENDING; the active task
     * list, keyed by quest, keeps the last of them.
     */
    method ActivateTasks(player: PlayerQuests, quest: Quest, entries: seq<TaskEntry>)
      modifies this, player
      ensures player.questList == old(player.questList) && cyclesLeft == old(cyclesLeft)
      ensures player.activeTaskList == ActiveAfter(old(player.activeTaskList), quest, entries)
      ensures effects == old(effects) + Started(quest, entries)
    {
      ghost var active := player.activeTaskList;
      ghost var log := effects;
      var i := 0;
      while i < |entries|
        invariant 0 <= i <= |entries|
        invariant player.questList == old(player.questList) && cyclesLeft == old(cyclesLeft)
        invariant player.activeTaskList == ActiveAfter(active, quest, entries[..i])
        invariant effects == log + Started(quest, entries[..i])
      {
        var task := entries[i].task;
        assert entries[..i + 1][..i] == entries[..i];
        assert LastStarted(entries[..i + 1]) == if entries[i].status != Pending then Some(task) else LastStarted(entries[..i]);
        assert Started(quest, entries[..i + 1])
               == Started(quest, entries[..i]) + if entries[i].status != Pending then [StartTask(quest, task)] else [];
        if entries[i].status != Pending {
          player.activeTaskList := player.activeTaskList[quest := task];
          effects := effects + [StartTask(quest, task)];
        }
        i := i + 1;
      }
      assert entries[..i] == entries;
    }

    /**
     * A player takes a quest: the quest gets its own copy of the known tasks,
     * is added to the player's quest list, its started tasks are activated,
     * and the quest's source entity is destroyed.
     */
    method BeforeQuestActivated(player: PlayerQuests, playerEntity: EntityRef, questItem: QuestItem,
                                source: EntityRef, sourcePosition: Position, hostStatus: Task -> Status)
      returns (quest: FetchQuest)
      modifies this, player
      ensures fresh(quest) && fresh(quest.tasks) && cyclesLeft == old(cyclesLeft)
      ensures quest.entity == playerEntity && quest.returnPoint == sourcePosition
      ensures quest.shortName == questItem.shortName && quest.description == questItem.description
      ensures TasksOf(quest.tasks.entries) == KnownTasks(questItem.tasks)
      ensures forall i :: 0 <= i < |quest.tasks.entries| ==>
                quest.tasks.entries[i].status == hostStatus(quest.tasks.entries[i].task)
      ensures player.questList == old(player.questList) + [Fetch(quest)]
      ensures player.activeTaskList == ActiveAfter(old(player.activeTaskList), Fetch(quest), quest.tasks.entries)
      ensures effects == old(effects) + Started(Fetch(quest), quest.tasks.entries) + [Destroy(source)]
    {
      var taskGraph := CopyTasks(questItem.tasks, hostStatus);
      quest := new FetchQuest(playerEntity, sourcePosition, questItem.shortName, questItem.description, taskGraph);
      player.questList := player.questList + [Fetch(quest)];
      ActivateTasks(player, Fetch(quest), taskGraph.entries);
      effects := effects + [Destroy(source)];
    }

    /**
     * On the start of the return-home task of a quest named "FetchQuest",
     * places a beacon at the quest's return point, when the beacon prefab
     * exists, and shows it to the player's character.
     */
    method OnReturnTaskInitiated(quest: Quest, task: Task, beaconPrefab: bool, character: EntityRef)
      returns (outcome: HandlerOutcome)
      modifies this, if quest.Fetch? then {quest.fetch} else {}
      ensures cyclesLeft == old(cyclesLeft)
      ensures quest.Fetch? ==> quest.fetch.returnPoint == old(quest.fetch.returnPoint)
      ensures !IsReturnHome(quest, task) ==> outcome == Ignored && effects == old(effects)
      ensures IsReturnHome(quest, task) && quest.OtherQuest? ==> outcome == ClassCastError && effects == old(effects)
      ensures IsReturnHome(quest, task) && quest.Fetch? ==>
                && outcome == Handled
                && effects == old(effects) + if beaconPrefab
                                             then [CreateBeacon(quest.fetch.returnPoint), AddBeaconOverlay(character)]
                                             else []
    {
      if ShortName(quest) != FetchQuestId || task.id != HomeTaskId {
        return Ignored;
      }
      if !quest.Fetch? {
        return ClassCastError;
      }
      var fetchQuest := quest.fetch;
      if beaconPrefab {
        var at := fetchQuest.GetReturnPoint();
        effects := effects + [CreateBeacon(at)];
        var point := fetchQuest.GetReturnPoint();
        fetchQuest.SetReturnPoint(point);
        effects := effects + [AddBeaconOverlay(character)];
      }
      return Handled;
    }

    /** The slot search of the completion handler: the first slot holding meat, or NullItem. */
    method FindMeat(slots: seq<Slot>) returns (item: Slot)
      ensures item == FirstMeat(slots)
    {
      item := NullItem;
      var i := 0;
      while i < |slots|
        invariant 0 <= i <= |slots|
        invariant FirstMeat(slots) == FirstMeat(slots[i..])
      {
        var current := slots[i];
        if current != NullItem && EqualsIgnoreCase(ItemId, current.prefabName) {
          item := current;
          break;
        }
        assert slots[i..][1..] == slots[i + 1..];
        i := i + 1;
      }
    }

    /**
     * On the successful completion of a fetch quest: removes the first meat
     * item found (amount from `amounts`, so 0), pays the reward, removes the
     * beacon overlay and takes the quest off the player's list. Any other
     * completion does nothing.
     */
    method OnQuestComplete(player: PlayerQuests, character: EntityRef, success: bool, quest: Quest, slots: seq<Slot>)
      requires Valid()
      modifies this, player
      ensures Valid() && cyclesLeft == old(cyclesLeft)
      ensures player.activeTaskList == old(player.activeTaskList)
      ensures !(success && quest.Fetch?) ==> player.questList == old(player.questList) && effects == old(effects)
      ensures success && quest.Fetch? ==>
                && player.questList == RemoveFirst(old(player.questList), quest)
                && effects == old(effects) + [RemoveItem(character, FirstMeat(slots), 0),
                                              WalletTransaction(character, Reward),
                                              RemoveBeaconOverlay(character)]
    {
      if success && quest.Fetch? {
        var item := FindMeat(slots);
        effects := effects + [RemoveItem(character, item, GetOrDefault(amounts, ItemId, 0))];
        effects := effects + [WalletTransaction(character, Reward)];
        effects := effects + [RemoveBeaconOverlay(character)];
        player.questList := RemoveFirst(player.questList, quest);
      }
    }
  }
}
