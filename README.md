# ToDoListViewModel in Dafny

A model of `ToDoListViewModel`, the view-model of a small iOS to-do list app.
It holds the ordered list of to-do items in the field `toDoItems`. It persists
that list through a repository with two operations, `loadToDoItems` and
`saveToDoItems`. It offers four edits: add an item, toggle an item's completion,
remove an item, and apply a filter.

Every assignment to or mutation of `toDoItems` saves the whole list. In Swift
this is the property's `didSet` observer. The model makes it explicit:
`ToDoListViewModel.SetToDoItems` assigns the field and then saves. The
repository is an in-memory store (`Storage.Repository`): a save replaces the
stored list and a load returns the last list saved. The repository keeps a
ghost log `saves` of every list it was asked to save and a ghost count `loads`,
so the contracts can say how many saves an operation makes and with what.

Files:

- `filtering.dfy` (module `Filtering`): an order-preserving `Filter` on
  sequences, the subsequence relation, and lemmas about them.
- `items.dfy` (module `ToDoItems`): the `ToDoItem` datatype and the pure list
  edits: first-match toggling, all-match removal, and the done/undone views.
- `repository.dfy` (module `Storage`): the in-memory repository.
- `view_model.dfy` (module `ViewModel`): the class `ToDoListViewModel`.

Behaviour the model keeps from the Swift code:

- Construction loads once and saves nothing. Swift does not run a class's own
  property observers inside its initializer.
- `add` appends the item, even one whose identifier is already in the list, and
  saves once.
- `toggleTodoItemCompletion` negates `isDone` of the first item with the same
  identifier only. Later items with that identifier are left alone. When no
  item matches, nothing is assigned, so nothing is saved.
- `removeTodoItem` deletes every item with the identifier. It always saves
  once, even when nothing matched, because `removeAll` always mutates the list.
- `applyFilter(at:)` loads once. For index 1 it shows the done items, for 2 the
  undone items, in load order. In those two cases it saves twice: first the
  filtered view (through `didSet`), then the full loaded list. For any other
  index, including 0 and negative ones, it shows the loaded list and saves it
  once. In every case storage ends equal to what was loaded.
- Identifiers are not assumed unique.
- After every operation the held list is the stored list or its done or undone
  view (`ToDoListViewModel.ShowsStorage`). It is therefore a subsequence of
  what is stored (`ToDoListViewModel.ShownWithinStorage`).
- `applyFilter(at:)` leaves storage equal to what it loaded, but the held list
  is then only the view. The next add, matching toggle or remove saves that
  view over storage, so the items the filter hid are lost from storage
  (`FilterThenAdd`: filter 1 followed by an add stores the done items plus the
  new one, and no other undone item survives).

## Model

| member | source | states |
|---|---|---|
| `Filtering.Filter` | ToDoList/Sources/ToDoListViewModel.swift:51 | the result holds exactly the input's elements that pass the predicate, and is no longer than the input |
| `Filtering.FilterIsSubsequence` | ToDoList/Sources/ToDoListViewModel.swift:55 | a filtered list is a subsequence of the original: relative order is kept |
| `Filtering.FilterAppend` | ToDoList/Sources/ToDoListViewModel.swift:51 | filtering a concatenation is the concatenation of the filtered parts, so earlier kept items stay before later ones |
| `Filtering.FilterMultiset` | ToDoList/Sources/ToDoListViewModel.swift:51 | a filter keeps every copy of each passing element and no copy of a failing one |
| `Filtering.FilterIdempotent` | ToDoList/Sources/ToDoListViewModel.swift:40 | filtering twice with one predicate equals filtering once |
| `Filtering.FilterKeepsAll` | ToDoList/Sources/ToDoListViewModel.swift:40 | the filter returns its input unchanged if and only if every element passes |
| `Filtering.FilterPartition` | ToDoList/Sources/ToDoListViewModel.swift:49-56 | two complementary filters together keep as many elements as the input has |
| `ToDoItems.Flipped` | ToDoList/Sources/ToDoListViewModel.swift:34 | `isDone.toggle()` negates the flag and keeps the identifier and the other fields |
| `ToDoItems.FirstIndex` | ToDoList/Sources/ToDoListViewModel.swift:33 | `firstIndex(where:)` returns the first position with the identifier, and nothing exactly when no item has it |
| `ToDoItems.ToggleFirst` | ToDoList/Sources/ToDoListViewModel.swift:33-35 | same length; only the first item with the identifier is flipped; every other item, later duplicates included, is unchanged; no match leaves the list as it is |
| `ToDoItems.Removed` | ToDoList/Sources/ToDoListViewModel.swift:40 | the result holds every copy of each item whose identifier differs and nothing else, in their original order |
| `ToDoItems.Completed` | ToDoList/Sources/ToDoListViewModel.swift:51 | the result holds every copy of each done item and nothing else, in their original order |
| `ToDoItems.Pending` | ToDoList/Sources/ToDoListViewModel.swift:55 | the result holds every copy of each undone item and nothing else, in their original order |
| `ToDoItems.Shown` | ToDoList/Sources/ToDoListViewModel.swift:48-59 | index 1 shows every copy of each done item, 2 of each undone one, and nothing else; any other index shows the loaded list; always a subsequence of what was loaded |
| `ViewModel.ToDoListViewModel.ShownWithinStorage` | ToDoList/Sources/ToDoListViewModel.swift:44-60 | whenever the held list is the stored list or its done or undone view, it is a subsequence of the stored list |
| `ToDoItems.ToggleFirstTwice` | ToDoList/Sources/ToDoListViewModel.swift:32-36 | toggling the same identifier twice restores the original list |
| `ToDoItems.RemovedIdempotent` | ToDoList/Sources/ToDoListViewModel.swift:39-41 | removing the same identifier twice equals removing it once |
| `ToDoItems.RemovedUnchanged` | ToDoList/Sources/ToDoListViewModel.swift:40 | removal leaves the list unchanged if and only if no item has the identifier |
| `ToDoItems.RemovedCount` | ToDoList/Sources/ToDoListViewModel.swift:40 | removal deletes exactly as many items as carry the identifier (all of them, not just the first) |
| `ToDoItems.RemovedAppend` | ToDoList/Sources/ToDoListViewModel.swift:40 | removal on a concatenation is removal on each part, so the relative order of kept items is preserved |
| `ToDoItems.CompletedPendingPartition` | ToDoList/Sources/ToDoListViewModel.swift:49-56 | the done view and the undone view together hold as many items as were loaded |
| `Storage.Repository.LoadToDoItems` | ToDoList/Sources/ToDoListViewModel.swift:46 | a load returns the stored list and changes nothing but the load count |
| `Storage.Repository.SaveToDoItems` | ToDoList/Sources/ToDoListViewModel.swift:20 | a save replaces the stored list and appends it to the save log |
| `ViewModel.ToDoListViewModel.constructor` | ToDoList/Sources/ToDoListViewModel.swift:10-13 | the held list equals one load's result exactly; one load and no save |
| `ViewModel.ToDoListViewModel.SetToDoItems` | ToDoList/Sources/ToDoListViewModel.swift:18-22 | assigning the list saves the new list once and stores it |
| `ViewModel.ToDoListViewModel.Add` | ToDoList/Sources/ToDoListViewModel.swift:27-29 | the held list is the old list with the item appended; exactly one save, of that list; the invariant holds |
| `ViewModel.ToDoListViewModel.ToggleTodoItemCompletion` | ToDoList/Sources/ToDoListViewModel.swift:32-36 | the held list is the first-match toggle of the old one; one save of it on a match; no change and no save without a match; the invariant is kept |
| `ViewModel.ToDoListViewModel.RemoveTodoItem` | ToDoList/Sources/ToDoListViewModel.swift:39-41 | the held list is the old list without every item with the identifier; one save of it, even with no match; the invariant holds |
| `ViewModel.ToDoListViewModel.ApplyFilter` | ToDoList/Sources/ToDoListViewModel.swift:44-60 | one load; the held list is the selected view of what was loaded; saves are the view then the loaded list for indexes 1 and 2, else the loaded list once; storage ends as loaded; the invariant holds |
| `ViewModel.FilterThenAdd` | ToDoList/Sources/ToDoListViewModel.swift:18-58 | filter 1 followed by an add stores the done items of the old storage plus the added item; every other undone item is gone from storage |

## Left out

- SwiftUI change publication (`ObservableObject`, `@Published`): only the save that `didSet` performs is modelled.
- The real implementation of `ToDoListRepositoryType` is not part of this model. The in-memory `Storage.Repository` stands in for it: a load returns the last list saved. A collaborator whose load returns something else is not modelled, nor are its failures.
- `ToDoItem` is not part of this model. Its fields other than `id` and `isDone` are one opaque `details` string that every operation passes through unchanged. The identifier is an `int` here; only its equality matters to the code.
- Thread safety: the class has no synchronization and is modelled as used from one thread.
