# MetalRenegades: market catalogue and fetch quests

This project is a Dafny model of three small pieces of logic in the MetalRenegades game module. Each is proved against its own specification.

- **The market item catalogue** (`market_items.dfy`, module `MarketItems`). This is the process-wide table from item id to market item behind `MarketItemBuilder`.
  - The table is filled lazily from a fixed list of ten produce and tool items plus a blank `"empty"` entry.
  - `get(name, quantity)` creates and stores a "mystery item" when it does not know the name.
  - It then overwrites the quantity and trade flags of the entry it hands out. That entry is the cached object itself, so the change is visible to later lookups.
  - The value-level half states what every call does to the table and what it answers (`Initialised`, `After`, `Answer`, `Run`). The lemmas over call sequences build on that.
  - `MarketItemBuilder` is a class whose `details` map points to `MarketItem` objects. Its methods are proved to follow the value-level statement. The in-place update is a write to a heap object that the map shares.
- **The fetch quest record** (`fetch_quest.dfy`, module `FetchQuests`).
  - A quest with fixed entity, name, description and task graph, and a settable return point.
  - `getStatus` is an early-exit scan. The status of the first FAILED or ACTIVE task wins; otherwise the quest has SUCCEEDED.
  - The host's task graph is a sequence of (task, status) pairs in iteration order.
- **The fetch quest system** (`fetch_quest_system.dfy`, module `FetchQuestSystems`).
  - The world-time counter that fires the church pass on every 21st event.
  - The pass gives each unmarked church a quest point at most once.
  - Taking a quest copies its known tasks and starts the non-PENDING ones.
  - The guard of the return-home handler.
  - The completion payout: the first meat slot, the fixed reward of 50, and the removal of the quest.
  - Engine services become parameters and records. Everything the system asks the host to do is appended to a ghost effect log.

Java's semantics are written out where they matter:
- `/` truncates toward zero (`JavaHalf`).
- `List.remove(Object)` takes out the first equal element (`RemoveFirst`).
- `getOrDefault` (`GetOrDefault`).
- A failing cast to `FetchQuest` is the outcome `ClassCastError`.

## Model

| member | source | states |
|---|---|---|
| MarketItems.Filled | src/main/java/org/terasology/metalrenegades/economy/ui/MarketItemBuilder.java:32-119 | putting the fixed pairs in order gives a table whose keys are exactly the keys of the list |
| MarketItems.FilledFromLast | src/main/java/org/terasology/metalrenegades/economy/ui/MarketItemBuilder.java:32-119 | each entry of the filled table comes from the last put of its key (a later put overwrites an earlier one) |
| MarketItems.InitialEntries | src/main/java/org/terasology/metalrenegades/economy/ui/MarketItemBuilder.java:33-119 | the table the eleven puts of the fixed list leave, in source order (`InitialList` holds their arguments); its shape is stated by `InitialEntriesShape` |
| MarketItems.NoDefaultEntry | src/main/java/org/terasology/metalrenegades/economy/ui/MarketItemBuilder.java:27-28 | the initialisation never puts a `"default"` entry |
| MarketItems.InitialEntriesShape | src/main/java/org/terasology/metalrenegades/economy/ui/MarketItemBuilder.java:33-119 | the `"empty"` entry is blank with quantity 0; every other initial key holds an item with that id and quantity 2 |
| MarketItems.Initialised | src/main/java/org/terasology/metalrenegades/economy/ui/MarketItemBuilder.java:125-127 | afterwards the flag is set; the fixed entries are added only when the flag was clear, and an initialised table is left exactly as it was |
| MarketItems.Requested | src/main/java/org/terasology/metalrenegades/economy/ui/MarketItemBuilder.java:143-155 | the entry get hands out has the caller's quantity, is buyable and not sellable, and otherwise is the stored entry, or a mystery item named after `name` |
| MarketItems.Cached | src/main/java/org/terasology/metalrenegades/economy/ui/MarketItemBuilder.java:143-146 | the entry get starts from: the stored entry, or for an unknown name a mystery item with that id and name, the mystery description, the flag false and neither trade flag set |
| MarketItems.After | src/main/java/org/terasology/metalrenegades/economy/ui/MarketItemBuilder.java:124-156 | after any public call the table is initialised and the fixed list is unchanged |
| MarketItems.Answer | src/main/java/org/terasology/metalrenegades/economy/ui/MarketItemBuilder.java:124-156 | get never answers null; getEmpty and getDefault answer null exactly when the initialised table has no `"empty"` or `"default"` key |
| MarketItems.Run | src/main/java/org/terasology/metalrenegades/economy/ui/MarketItemBuilder.java:29-30 | over any sequence of calls the fixed list stays the initial one |
| MarketItems.GetUpdatesCache | src/main/java/org/terasology/metalrenegades/economy/ui/MarketItemBuilder.java:143-155 | get answers exactly the entry the table then stores under `name`: quantity q, buyable, not sellable |
| MarketItems.GetTouchesOnlyName | src/main/java/org/terasology/metalrenegades/economy/ui/MarketItemBuilder.java:143-146 | get adds at most the key `name` and leaves every other entry as it was |
| MarketItems.GetTwiceInsertsNothing | src/main/java/org/terasology/metalrenegades/economy/ui/MarketItemBuilder.java:143-146 | a second get of the same name inserts no key |
| MarketItems.RunInitialises | src/main/java/org/terasology/metalrenegades/economy/ui/MarketItemBuilder.java:121-141 | the table is initialised exactly when some call has been made, and then holds every fixed key |
| MarketItems.InitialisesOnce | src/main/java/org/terasology/metalrenegades/economy/ui/MarketItemBuilder.java:121-141 | over any non-empty sequence of calls the initialisation runs exactly once, and over the empty sequence never |
| MarketItems.DefaultOnlyWhenRequested | src/main/java/org/terasology/metalrenegades/economy/ui/MarketItemBuilder.java:143-149 | the table holds `"default"` if and only if some get asked for `"default"` |
| MarketItems.DefaultIsNullUntilRequested | src/main/java/org/terasology/metalrenegades/economy/ui/MarketItemBuilder.java:124-129 | getDefault answers null if and only if no get of `"default"` has been made |
| MarketItems.UnrequestedEntryKept | src/main/java/org/terasology/metalrenegades/economy/ui/MarketItemBuilder.java:32-122 | a fixed entry keeps its initial value until a get names it |
| MarketItems.EmptyIsBlankUntilRequested | src/main/java/org/terasology/metalrenegades/economy/ui/MarketItemBuilder.java:131-136 | before any get of `"empty"`, getEmpty answers the blank entry with quantity 0 |
| MarketItems.EmptyAfterGetReportsQuantity | src/main/java/org/terasology/metalrenegades/economy/ui/MarketItemBuilder.java:152-154 | after get("empty", q), getEmpty reports quantity q, buyable and not sellable: get changed the cached entry itself |
| MarketItems.MarketItem.constructor | src/main/java/org/terasology/metalrenegades/economy/ui/MarketItemBuilder.java:160-166 | a new item holds its five arguments and is neither buyable nor sellable |
| MarketItems.MarketItemBuilder.constructor | src/main/java/org/terasology/metalrenegades/economy/ui/MarketItemBuilder.java:29-30 | the table starts empty and uninitialised |
| MarketItems.MarketItemBuilder.Fill | src/main/java/org/terasology/metalrenegades/economy/ui/MarketItemBuilder.java:33-119 | the puts leave the table holding `Filled` of the list, each entry a fresh object of its own |
| MarketItems.MarketItemBuilder.Initialise | src/main/java/org/terasology/metalrenegades/economy/ui/MarketItemBuilder.java:32-122 | fills the empty table with the fixed list and sets the flag, as `Initialised` says |
| MarketItems.MarketItemBuilder.EnsureInitialised | src/main/java/org/terasology/metalrenegades/economy/ui/MarketItemBuilder.java:139-141 | runs the initialisation only when the flag is clear; otherwise the table is untouched |
| MarketItems.MarketItemBuilder.TryCreate | src/main/java/org/terasology/metalrenegades/economy/ui/MarketItemBuilder.java:158-169 | never null: stores and returns a fresh item with id and name `name`, the mystery description and a quantity in [0, 50); no other key changes |
| MarketItems.MarketItemBuilder.GetDefault | src/main/java/org/terasology/metalrenegades/economy/ui/MarketItemBuilder.java:124-129 | initialises if needed and answers the `"default"` entry, or null when the table has none |
| MarketItems.MarketItemBuilder.GetEmpty | src/main/java/org/terasology/metalrenegades/economy/ui/MarketItemBuilder.java:131-136 | initialises if needed and answers the `"empty"` entry, or null when the table has none |
| MarketItems.MarketItemBuilder.Overwrite | src/main/java/org/terasology/metalrenegades/economy/ui/MarketItemBuilder.java:152-154 | writes quantity and trade flags into the stored object, so the table's entry for that key changes and no other entry does |
| MarketItems.MarketItemBuilder.Lookup | src/main/java/org/terasology/metalrenegades/economy/ui/MarketItemBuilder.java:143-150 | answers the stored object or a newly created one, never null, so the fallback to `"default"` is unreachable |
| MarketItems.MarketItemBuilder.Stamp | src/main/java/org/terasology/metalrenegades/economy/ui/MarketItemBuilder.java:143-155 | the entry for `name` becomes the cached or mystery item with the caller's quantity and flags; every previous entry keeps its object |
| MarketItems.MarketItemBuilder.Get | src/main/java/org/terasology/metalrenegades/economy/ui/MarketItemBuilder.java:138-156 | the new table is `After` of the old one, the returned object is the one stored under `name`, and it holds `Answer` of the call |
| FetchQuests.QuestStatus | src/main/java/org/terasology/metalrenegades/quests/FetchQuest.java:51-62 | never PENDING; SUCCEEDED if and only if no task is FAILED or ACTIVE (including an empty or all-PENDING graph) |
| FetchQuests.FirstDecisiveDecides | src/main/java/org/terasology/metalrenegades/quests/FetchQuest.java:52-59 | the status of the first FAILED or ACTIVE task in iteration order is the quest's status; PENDING and SUCCEEDED tasks before it are skipped |
| FetchQuests.StatusHasFirstDecisive | src/main/java/org/terasology/metalrenegades/quests/FetchQuest.java:52-61 | a status other than SUCCEEDED is the status of a task with no FAILED or ACTIVE task before it |
| FetchQuests.StatusOfConcat | src/main/java/org/terasology/metalrenegades/quests/FetchQuest.java:52-61 | a concatenated graph is decided by its first part unless that part has no decisive task |
| FetchQuests.ActiveBeforeFailed | src/main/java/org/terasology/metalrenegades/quests/FetchQuest.java:52-59 | order matters: ACTIVE then FAILED gives ACTIVE, FAILED then ACTIVE gives FAILED |
| FetchQuests.TaskGraph.constructor | src/main/java/org/terasology/metalrenegades/quests/FetchQuestSystem.java:136 | a new task graph holds no tasks |
| FetchQuests.TaskGraph.Add | src/main/java/org/terasology/metalrenegades/quests/FetchQuestSystem.java:139-148 | appends the task, with the status the host gives it, at the end of the iteration order |
| FetchQuests.FetchQuest.constructor | src/main/java/org/terasology/metalrenegades/quests/FetchQuest.java:10-42 | entity, short name, description, task graph and return point are the constructor's arguments; the first four are constants, so the getters return them |
| FetchQuests.FetchQuest.GetReturnPoint | src/main/java/org/terasology/metalrenegades/quests/FetchQuest.java:44 | answers the current return point and changes nothing |
| FetchQuests.FetchQuest.SetReturnPoint | src/main/java/org/terasology/metalrenegades/quests/FetchQuest.java:46-48 | the return point becomes `p`; no other field can change |
| FetchQuests.FetchQuest.GetStatus | src/main/java/org/terasology/metalrenegades/quests/FetchQuest.java:50-62 | the early-exit loop answers `QuestStatus` of the graph and modifies nothing |
| FetchQuests.FetchQuest.ToString | src/main/java/org/terasology/metalrenegades/quests/FetchQuest.java:64-67 | the text is `"FetchQuest ["`, then the short name, then `"]"` |
| FetchQuestSystems.NextCycles | src/main/java/org/terasology/metalrenegades/quests/FetchQuestSystem.java:86-87 | one event either increments the counter or resets it to 0, and a counter in [0, 20] stays in [0, 20] |
| FetchQuestSystems.PassFires | src/main/java/org/terasology/metalrenegades/quests/FetchQuestSystem.java:86-87 | the pass runs on the event whose incremented counter exceeds 20 |
| FetchQuestSystems.CyclesAfterIsRemainder | src/main/java/org/terasology/metalrenegades/quests/FetchQuestSystem.java:82-87 | starting from 0, after n events the counter is n mod 21 |
| FetchQuestSystems.PassFiresEvery21st | src/main/java/org/terasology/metalrenegades/quests/FetchQuestSystem.java:86-87 | event number n + 1 runs the church pass if and only if n + 1 is a multiple of 21 |
| FetchQuestSystems.Qualifies | src/main/java/org/terasology/metalrenegades/quests/FetchQuestSystem.java:90-91 | a building qualifies when it is named `"simplechurch"` and has no quest point reference yet |
| FetchQuestSystems.Visit | src/main/java/org/terasology/metalrenegades/quests/FetchQuestSystem.java:90-95 | a building after the pass: marked exactly when it qualifies and the quest point prefab exists, otherwise unchanged |
| FetchQuestSystems.ChurchPass | src/main/java/org/terasology/metalrenegades/quests/FetchQuestSystem.java:88-91 | the pass visits every building and keeps their number |
| FetchQuestSystems.JavaHalf | src/main/java/org/terasology/metalrenegades/quests/FetchQuestSystem.java:96 | halving truncates toward zero, for non-negative and for negative sizes |
| FetchQuestSystems.SpawnPosition | src/main/java/org/terasology/metalrenegades/quests/FetchQuestSystem.java:96-97 | the middle of the parcel, with both halves truncated toward zero, two blocks above the parcel height |
| FetchQuestSystems.Spawn | src/main/java/org/terasology/metalrenegades/quests/FetchQuestSystem.java:97-106 | the quest point created for a building: at its spawn position, offering the one quest item `"card"` |
| FetchQuestSystems.SpawnInsideParcel | src/main/java/org/terasology/metalrenegades/quests/FetchQuestSystem.java:96 | for a parcel of positive size the quest point lies inside it, two blocks above its height |
| FetchQuestSystems.QuestPointSpawns | src/main/java/org/terasology/metalrenegades/quests/FetchQuestSystem.java:88-106 | a pass never requests more quest points than there are buildings |
| FetchQuestSystems.SpawnsInBuildingOrder | src/main/java/org/terasology/metalrenegades/quests/FetchQuestSystem.java:88-125 | every request of a pass is a quest point for one of its buildings, and the requests come in strictly increasing building order, so a pass gives no building two quest points |
| FetchQuestSystems.SpawnsAreQualifying | src/main/java/org/terasology/metalrenegades/quests/FetchQuestSystem.java:88-106 | a quest point is created for a building if and only if the prefab exists and the building is an unmarked `"simplechurch"`; it sits at that building's spawn position with the quest items `["card"]` |
| FetchQuestSystems.PassMarksQualifying | src/main/java/org/terasology/metalrenegades/quests/FetchQuestSystem.java:90-122 | a building has a quest point after the pass if and only if it had one or qualified with the prefab present; nothing else about it changes |
| FetchQuestSystems.NoPrefabNoChange | src/main/java/org/terasology/metalrenegades/quests/FetchQuestSystem.java:94-95 | without the prefab a pass marks nothing and creates nothing, so a church stays eligible |
| FetchQuestSystems.NoSecondQuestPoint | src/main/java/org/terasology/metalrenegades/quests/FetchQuestSystem.java:90-91 | after a pass with the prefab present, a later pass marks nothing and creates no quest point |
| FetchQuestSystems.NoneQualifyNoSpawns | src/main/java/org/terasology/metalrenegades/quests/FetchQuestSystem.java:90-91 | a pass over buildings none of which qualifies creates nothing |
| FetchQuestSystems.Known | src/main/java/org/terasology/metalrenegades/quests/FetchQuestSystem.java:139-148 | the `instanceof` chain: a task is copied when it is a CollectBlocks, GoToBeacon or TimeConstraint task |
| FetchQuestSystems.KnownTasks | src/main/java/org/terasology/metalrenegades/quests/FetchQuestSystem.java:138-149 | the copy is never longer than the task list |
| FetchQuestSystems.KnownTasksMembers | src/main/java/org/terasology/metalrenegades/quests/FetchQuestSystem.java:138-149 | a task is copied if and only if it is a CollectBlocks, GoToBeacon or TimeConstraint task of the list |
| FetchQuestSystems.KnownTasksConcat | src/main/java/org/terasology/metalrenegades/quests/FetchQuestSystem.java:138-149 | copying keeps the original order |
| FetchQuestSystems.KnownTasksKeepsAllKnown | src/main/java/org/terasology/metalrenegades/quests/FetchQuestSystem.java:139-147 | tasks all of known kinds are copied unchanged, with the same ids and parameters |
| FetchQuestSystems.Copied | src/main/java/org/terasology/metalrenegades/quests/FetchQuestSystem.java:138-149 | the graph the `forEach` builds: each known task in order, with the status the host gives it |
| FetchQuestSystems.LastStarted | src/main/java/org/terasology/metalrenegades/quests/FetchQuestSystem.java:156-161 | there is no last started task if and only if every task is PENDING |
| FetchQuestSystems.LastStartedIsLast | src/main/java/org/terasology/metalrenegades/quests/FetchQuestSystem.java:156-161 | the chosen task is not PENDING and every task after it is |
| FetchQuestSystems.ActiveAfter | src/main/java/org/terasology/metalrenegades/quests/FetchQuestSystem.java:156-159 | the active task list after the loop: the quest's key set to the last non-PENDING task, or the list unchanged when every task is PENDING |
| FetchQuestSystems.ActiveIsLastStarted | src/main/java/org/terasology/metalrenegades/quests/FetchQuestSystem.java:156-161 | only the quest's own entry of the active task list changes: it becomes the last non-PENDING task, or stays as it was when all are PENDING |
| FetchQuestSystems.Started | src/main/java/org/terasology/metalrenegades/quests/FetchQuestSystem.java:156-160 | the StartTaskEvents the loop sends: one for each non-PENDING task, in iteration order |
| FetchQuestSystems.StartedAreNonPending | src/main/java/org/terasology/metalrenegades/quests/FetchQuestSystem.java:156-161 | a StartTaskEvent is sent for a task if and only if it is not PENDING |
| FetchQuestSystems.StartedEndsWithLast | src/main/java/org/terasology/metalrenegades/quests/FetchQuestSystem.java:156-161 | some event is sent if and only if some task is not PENDING, and the last event sent is for the task the active list keeps |
| FetchQuestSystems.IsReturnHome | src/main/java/org/terasology/metalrenegades/quests/FetchQuestSystem.java:170-171 | the return handler acts only on a quest whose short name is `"FetchQuest"` and a task whose id is `"returnHome"` |
| FetchQuestSystems.EqualsIgnoreCase | src/main/java/org/terasology/metalrenegades/quests/FetchQuestSystem.java:197 | two names match when they have the same length and agree character by character after ASCII upper-casing |
| FetchQuestSystems.EqualsIgnoreCaseFacts | src/main/java/org/terasology/metalrenegades/quests/FetchQuestSystem.java:197 | the case-insensitive comparison is an equivalence: reflexive, symmetric and transitive |
| FetchQuestSystems.EqualsIgnoreCaseExamples | src/main/java/org/terasology/metalrenegades/quests/FetchQuestSystem.java:197 | names that differ only in case match; names that differ in a letter do not |
| FetchQuestSystems.IsMeat | src/main/java/org/terasology/metalrenegades/quests/FetchQuestSystem.java:197 | a slot holds meat when it is not NULL and its parent prefab name equals `"WildAnimals:Meat"` ignoring case |
| FetchQuestSystems.FirstMeat | src/main/java/org/terasology/metalrenegades/quests/FetchQuestSystem.java:193-201 | NULL if and only if no slot holds meat; otherwise a slot of the inventory holding meat |
| FetchQuestSystems.FirstMeatIsFirst | src/main/java/org/terasology/metalrenegades/quests/FetchQuestSystem.java:195-201 | the chosen slot comes before every other slot holding meat |
| FetchQuestSystems.IndexOf | src/main/java/org/terasology/metalrenegades/quests/FetchQuestSystem.java:212 | the position of the first occurrence of the quest |
| FetchQuestSystems.RemoveFirst | src/main/java/org/terasology/metalrenegades/quests/FetchQuestSystem.java:212 | when the quest is in the list, its first occurrence is taken out and the other quests keep their order; otherwise the list is unchanged |
| FetchQuestSystems.RemoveFirstMultiset | src/main/java/org/terasology/metalrenegades/quests/FetchQuestSystem.java:212 | exactly one copy of the quest is removed, and nothing else |
| FetchQuestSystems.GetOrDefault | src/main/java/org/terasology/metalrenegades/quests/FetchQuestSystem.java:202 | the removal amount is the configured one for the item, or 0 when none is configured |
| FetchQuestSystems.CopiedHoldsKnownTasks | src/main/java/org/terasology/metalrenegades/quests/FetchQuestSystem.java:136-149 | the new graph holds exactly the known tasks, in order, each with the status the host gives it |
| FetchQuestSystems.CopyTasks | src/main/java/org/terasology/metalrenegades/quests/FetchQuestSystem.java:136-149 | the loop builds a fresh graph equal to `Copied`, whose tasks are `KnownTasks` of the quest item's tasks |
| FetchQuestSystems.FetchQuestSystem.constructor | src/main/java/org/terasology/metalrenegades/quests/FetchQuestSystem.java:74-82 | the counter starts at 0, no removal amount is configured, and nothing has been asked of the host |
| FetchQuestSystems.FetchQuestSystem.WorldTimeCycle | src/main/java/org/terasology/metalrenegades/quests/FetchQuestSystem.java:84-129 | the counter becomes `NextCycles` of the old one; when the pass fires the buildings become `ChurchPass` and the quest points `QuestPointSpawns` are requested, otherwise nothing else changes |
| FetchQuestSystems.FetchQuestSystem.MarkChurches | src/main/java/org/terasology/metalrenegades/quests/FetchQuestSystem.java:88-125 | the loop leaves the buildings as `ChurchPass` and requests exactly `QuestPointSpawns`, in building order |
| FetchQuestSystems.FetchQuestSystem.MarkChurch | src/main/java/org/terasology/metalrenegades/quests/FetchQuestSystem.java:89-123 | one building is marked and its quest point requested exactly when it qualifies and the prefab exists; no other building changes |
| FetchQuestSystems.FetchQuestSystem.ActivateTasks | src/main/java/org/terasology/metalrenegades/quests/FetchQuestSystem.java:156-162 | the loop leaves the active task list as `ActiveAfter` and sends exactly `Started`, in order |
| FetchQuestSystems.FetchQuestSystem.BeforeQuestActivated | src/main/java/org/terasology/metalrenegades/quests/FetchQuestSystem.java:131-166 | a fresh quest with the item's name and description, the known tasks and the source's position is appended to the quest list; its started tasks are activated and the source is destroyed last |
| FetchQuestSystems.FetchQuestSystem.OnReturnTaskInitiated | src/main/java/org/terasology/metalrenegades/quests/FetchQuestSystem.java:168-185 | ignored unless the quest is named `"FetchQuest"` and the task is `"returnHome"`; a non-fetch quest passing the guard fails the cast; otherwise a beacon is placed at the unchanged return point and shown, when the prefab exists |
| FetchQuestSystems.FetchQuestSystem.FindMeat | src/main/java/org/terasology/metalrenegades/quests/FetchQuestSystem.java:193-201 | the loop with its break finds `FirstMeat` of the slots |
| FetchQuestSystems.FetchQuestSystem.OnQuestComplete | src/main/java/org/terasology/metalrenegades/quests/FetchQuestSystem.java:187-216 | on a successful fetch quest: remove the first meat slot with amount 0, pay exactly 50, remove the overlay, and drop the quest from the list; any other completion changes nothing |

## Left out

- The engine's services are not modelled, because they are opaque host calls. This covers the entity manager, prefab lookup, component add, save and read, entity destruction, event sending and the inventory manager. Their presence becomes a boolean parameter, and their effects become entries of the ghost effect log.
- Float geometry (`Vector3f`) is not modelled. The spawn position is an integer triple computed before the conversion to floats. The return point is a `Position` record of three reals that the model only copies.
- `java.util.Random` is not modelled. The mystery item's quantity is an arbitrary value in [0, 50), with no distribution.
- The name tag of a quest point (text, colour, scale, offset) is not modelled, because it is only rendering. Copying the settlement reference onto the quest point is not modelled either, because it does not affect the logic.
- `event.consume()` is not modelled, because it only concerns host event dispatch.
- The host's task graph semantics are not modelled: dependencies, and how statuses advance. A task's status is whatever the host gives it (`hostStatus`).
- The source of `MarketItem` is not part of this model. The class `MarketItems.MarketItem` assumes its constructor stores its five arguments and leaves `buyable` and `sellable` false. The fifth argument is an opaque flag.
- `QuestPointReferenceComponent` is reduced to each building's `hasQuestPoint` flag. `FactionAlignmentComponent` is not part of this model, because neither has behaviour.
- The static `details` and `isInitialised` of `MarketItemBuilder` are one object's fields, with the fixed list held in a constant field. `initialise`'s eleven `put` calls are one loop over that list, in the same order.
- FetchQuestSystems.NoSecondQuestPoint: assumes the host's `saveComponent` adds the quest point reference to a church that lacks one. The model sets `hasQuestPoint`. The host's component semantics are not modelled.
- The concurrency of the host's event dispatch is not modelled: each handler runs to completion.
- FetchQuestSystems.EqualsIgnoreCase: compares ASCII letters only, not Java's full Unicode case folding.
- FetchQuestSystems.ChurchPass: the buildings are a fixed array visited in index order, while the host iterates its entities in an unspecified order.
- FetchQuestSystems.FetchQuestSystem.OnQuestComplete: `removeItem`'s "destroy" and "instigator" arguments (`true`, `NULL`) are not recorded in the effect log.
- FetchQuests.FetchQuest.constructor: the getters of the source are not separate members. The constant fields are what they return.
- The amount that `onQuestComplete` removes is always 0, because `amounts` is never written. The model keeps this behaviour and does not guess a different amount.
