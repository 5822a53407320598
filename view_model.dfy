// ToDoListViewModel: the in-memory list of to-do items, persisted through the
// repository every time the list is assigned or mutated (the `didSet` observer
// on `toDoItems`), with the add / toggle / remove / filter operations.

module ViewModel {
  import opened Filtering
  import opened ToDoItems
  import opened Storage

  class ToDoListViewModel {
    const repository: Repository
    var toDoItems: seq<ToDoItem>

    /** The held list is what storage holds, or its done or undone view.
        Every operation keeps this. `ApplyFilter` leaves storage equal to what
        it loaded, but the next edit saves the held view over it (see
        `FilterThenAdd`). */
    ghost predicate ShowsStorage()
      reads this, repository
    {
      toDoItems == repository.stored ||
      toDoItems == Completed(repository.stored) ||
      toDoItems == Pending(repository.stored)
    }

    /** The held list is always an order-preserving selection of the stored one. */
    lemma ShownWithinStorage()
      requires ShowsStorage()
      ensures IsSubsequence(toDoItems, repository.stored)
      ensures forall x :: x in toDoItems ==> x in repository.stored
    {
      if toDoItems == repository.stored {
        SubsequenceReflexive(toDoItems);
      }
    }

    /** Loads the list once. The assignment in the initializer does not run
        the `didSet` observer, so nothing is saved. */
    constructor (repository: Repository)
      modifies repository`loads
      ensures this.repository == repository
      ensures toDoItems == repository.stored == old(repository.stored)
      ensures repository.saves == old(repository.saves)
      ensures repository.loads == old(repository.loads) + 1
      ensures ShowsStorage()
    {
      this.repository := repository;
      var loaded := repository.LoadToDoItems();
      toDoItems := loaded;
    }

    /** An assignment to `toDoItems`, followed by its `didSet` save. */
    method SetToDoItems(items: seq<ToDoItem>)
      modifies this`toDoItems, repository`stored, repository`saves
      ensures toDoItems == items
      ensures repository.stored == items
      ensures repository.saves == old(repository.saves) + [items]
    {
      toDoItems := items;
      repository.SaveToDoItems(toDoItems);
    }

    /** Appends `item`, duplicate identifier or not, and saves the new list once. */
    method Add(item: ToDoItem)
      modifies this`toDoItems, repository`stored, repository`saves
      ensures toDoItems == old(toDoItems) + [item]
      ensures repository.saves == old(repository.saves) + [toDoItems]
      ensures repository.stored == toDoItems
      ensures ShowsStorage()
    {
      SetToDoItems(toDoItems + [item]);
    }

    /** Negates `isDone` of the first item with `item`'s identifier and saves
        once; without such an item nothing is assigned and nothing is saved. */
    method ToggleTodoItemCompletion(item: ToDoItem)
      modifies this`toDoItems, repository`stored, repository`saves
      ensures toDoItems == ToggleFirst(old(toDoItems), item.id)
      ensures HasId(old(toDoItems), item.id) ==>
        repository.saves == old(repository.saves) + [toDoItems] &&
        repository.stored == toDoItems
      ensures !HasId(old(toDoItems), item.id) ==>
        toDoItems == old(toDoItems) &&
        repository.saves == old(repository.saves) &&
        repository.stored == old(repository.stored)
      ensures old(ShowsStorage()) ==> ShowsStorage()
    {
      var found := FirstIndex(toDoItems, item.id);
      if found.Some? {
        var i := found.value;
        SetToDoItems(toDoItems[i := Flipped(toDoItems[i])]);
      }
    }

    /** Deletes every item with `item`'s identifier and saves once, even when
        no item matched (`removeAll` always mutates the observed list). */
    method RemoveTodoItem(item: ToDoItem)
      modifies this`toDoItems, repository`stored, repository`saves
      ensures toDoItems == Removed(old(toDoItems), item.id)
      ensures repository.saves == old(repository.saves) + [toDoItems]
      ensures repository.stored == toDoItems
      ensures ShowsStorage()
    {
      SetToDoItems(Removed(toDoItems, item.id));
    }

    /** Reloads the list and shows the view `index` selects. For 1 and 2 the
        view is saved (by `didSet`) and then the full reloaded list; for any
        other index the reloaded list is saved once. Storage ends as loaded. */
    method ApplyFilter(index: int)
      modifies this`toDoItems, repository`stored, repository`saves, repository`loads
      ensures repository.loads == old(repository.loads) + 1
      ensures toDoItems == Shown(old(repository.stored), index)
      ensures repository.stored == old(repository.stored)
      ensures index == 1 || index == 2 ==>
        repository.saves == old(repository.saves) + [toDoItems, repository.stored]
      ensures index != 1 && index != 2 ==>
        repository.saves == old(repository.saves) + [toDoItems]
      ensures ShowsStorage()
    {
      var oldToDoItems := repository.LoadToDoItems();
      if index == 1 {
        SetToDoItems(Completed(oldToDoItems));
        repository.SaveToDoItems(oldToDoItems);
      } else if index == 2 {
        SetToDoItems(Pending(oldToDoItems));
        repository.SaveToDoItems(oldToDoItems);
      } else {
        SetToDoItems(oldToDoItems);
      }
    }
  }

  /** Filtering to the done items and then adding an item: the add saves the
      held view, so every undone item other than the added one is gone from
      storage. */
  method FilterThenAdd(vm: ToDoListViewModel, item: ToDoItem)
    modifies vm`toDoItems, vm.repository`stored, vm.repository`saves, vm.repository`loads
    ensures vm.repository.stored == Completed(old(vm.repository.stored)) + [item]
    ensures forall x :: x in old(vm.repository.stored) && !x.isDone && x != item ==>
      x !in vm.repository.stored
  {
    vm.ApplyFilter(1);
    vm.Add(item);
  }
}
