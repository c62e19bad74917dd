# Task store of the Expo to-do application

This project models the task store of a small mobile to-do application. The store is a
Redux slice holding one list of tasks. The list starts empty and changes through three
reducers:

- `addTask` appends a task exactly as the caller built it.
- `toggleTask` flips `completed` on the first task with a given id.
- `deleteTask` keeps only the tasks whose id differs from the given one.

The task record (`types/taskTypes.ts`) is the datatype `TaskTypes.Task`. Its priority is
the enumeration `TaskTypes.Priority`. The date fields are opaque strings.

The store is the class `TaskSlice.TaskStore`. Its field `tasks: seq<Task>` is the slice's
`state.tasks`, and it has one method per reducer. Each method is proved against a
specification function on the old list:

- `AddTask` against `old(tasks) + [t]`.
- `ToggleTask` against `ToggleFirst`.
- `DeleteTask` against `Without`.

The lemmas state what those functions promise. The find and the filter that the reducers
run are the loop methods `TaskSlice.Find` and `TaskSlice.FilterOut`.

Three points of the code are easy to get wrong, and the model keeps them as written:

- Ids are not checked. The add-task screen builds each id with `uuid.v4()`
  (`app/(tabs)/add-task.tsx:52`), and `addTask` appends it without looking at the ids
  already stored (`lib/store/taskSlice.ts:17`). Uniqueness is therefore the separate
  predicate `UniqueIds`. The lemmas show that toggle and delete preserve it and that an
  append keeps it exactly when the new id is not yet present.
- Toggle and delete treat duplicates differently. `find` stops at the first match, so
  toggle flips only that task (`lib/store/taskSlice.ts:20-23`). `filter` removes every
  match (`lib/store/taskSlice.ts:26`). When ids are unique, a delete removes at most one
  task (`UniqueCountAtMostOne`, `WithoutLength`), and exactly one when the id is present
  (`UniqueDeleteRemovesOne`).
- The store does no validation. The blank-title check is in the add-task screen, before
  the dispatch (`app/(tabs)/add-task.tsx:46-49`).

## Model

| member | source | states |
|---|---|---|
| TaskTypes.Toggled | lib/store/taskSlice.ts:22 | toggling flips `completed` and keeps every other field of the task |
| TaskSlice.TaskStore.constructor | lib/store/taskSlice.ts:8-10 | the initial store holds no tasks |
| TaskSlice.TaskStore.AddTask | lib/store/taskSlice.ts:16-18 | the new list is the old list with the task appended, with no check of id or title |
| TaskSlice.TaskStore.ToggleTask | lib/store/taskSlice.ts:19-24 | the new list is `ToggleFirst` of the old one; it is unchanged when no task has the id, and otherwise differs from the old list only in `completed` of the first task with the id |
| TaskSlice.TaskStore.DeleteTask | lib/store/taskSlice.ts:25-27 | the new list is `Without` of the old one: the tasks with another id, in order |
| TaskSlice.Find | lib/store/taskSlice.ts:20 | `find` returns the first index whose task has the id; it reports not found exactly when the id is absent |
| TaskSlice.FilterOut | lib/store/taskSlice.ts:26 | the `filter` loop builds exactly `Without(s, id)` |
| TaskSlice.AppendIds | lib/store/taskSlice.ts:17 | appending adds the task's id to the set of ids and one to that id's count, even when the id is already present |
| TaskSlice.AppendUnique | lib/store/taskSlice.ts:16-18 | after an append ids are unique exactly when they were unique before and the new id was absent |
| TaskSlice.ToggleFirstAbsent | lib/store/taskSlice.ts:20-21 | toggling an id that no task has leaves the list unchanged |
| TaskSlice.ToggleFirstAt | lib/store/taskSlice.ts:20-23 | with `k` the first index holding the id, toggling changes only `completed` of task `k`; length, order, other tasks and later duplicates are kept |
| TaskSlice.ToggleFirstPresent | lib/store/taskSlice.ts:20-23 | when the id is present, a first index holding it exists, and toggling changes only `completed` of the task there |
| TaskSlice.ToggleFirstTwice | lib/store/taskSlice.ts:19-24 | toggling the same id twice restores the original list |
| TaskSlice.ToggleFirstIds | lib/store/taskSlice.ts:19-24 | toggling keeps the length, every position's id, the set of ids and id uniqueness |
| TaskSlice.WithoutAppend | lib/store/taskSlice.ts:26 | deleting distributes over concatenation, so the kept tasks stay in their relative order |
| TaskSlice.WithoutMultiplicity | lib/store/taskSlice.ts:26 | a task with another id is kept as many times as it occurred; a task with the id is gone |
| TaskSlice.WithoutMembers | lib/store/taskSlice.ts:26 | a task is in the result exactly when it was in the list with another id, so no task with the id remains |
| TaskSlice.WithoutLength | lib/store/taskSlice.ts:26 | the new length is the old length minus the number of tasks with the id |
| TaskSlice.WithoutAbsent | lib/store/taskSlice.ts:26 | deleting an absent id is a no-op |
| TaskSlice.WithoutIds | lib/store/taskSlice.ts:25-27 | the ids after deleting are the ids before, minus the deleted one |
| TaskSlice.WithoutIdempotent | lib/store/taskSlice.ts:26 | deleting the same id twice equals deleting it once |
| TaskSlice.WithoutUnique | lib/store/taskSlice.ts:25-27 | deleting keeps ids unique |
| TaskSlice.CountIdZero | lib/store/taskSlice.ts:20-21 | an id is counted zero times exactly when it is not among the ids, exactly when no position holds it |
| TaskSlice.UniqueCountAtMostOne | lib/store/taskSlice.ts:26 | when ids are unique an id occurs at most once, so a delete then removes at most one task |
| TaskSlice.UniqueDeleteRemovesOne | lib/store/taskSlice.ts:26 | when ids are unique and the id is present, a delete removes exactly one task |

## Left out

- Redux Toolkit mechanics (`createSlice`, action creators, the Immer draft) are not modelled. Each reducer is a direct update of the store's `tasks` field. The in-place `task.completed = ...` on a draft object becomes a sequence update; no aliasing of task objects is modelled, because the library turns the draft into a fresh state.
- The display-time owner filter and sort in `app/(tabs)/home.tsx` are not part of this model.
- Title validation and task construction (uuid, ISO date strings, owner id) in `app/(tabs)/add-task.tsx` are not part of this model. The store receives a fully formed task and checks nothing.
- Authentication, Firebase configuration, navigation and rendering (`lib/firebase/`, `components/`, `app/`) are I/O, foreign library calls or UI, and are not modelled.
- The `dateTime` and `deadline` strings are opaque: no parsing or ordering of them is modelled, since the store treats them as text.
