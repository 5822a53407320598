// The storage collaborator of ToDoListViewModel (`ToDoListRepositoryType`,
// whose implementation is not part of this model), as an in-memory store:
// saving replaces the stored list wholesale, loading returns the last one saved.

module Storage {
  import opened ToDoItems

  class Repository {
    /** What a load returns: the list most recently saved. */
    var stored: seq<ToDoItem>
    /** Every list ever passed to `SaveToDoItems`, oldest first. */
    ghost var saves: seq<seq<ToDoItem>>
    /** How many times `LoadToDoItems` has been called. */
    ghost var loads: nat

    constructor (initial: seq<ToDoItem>)
      ensures stored == initial && saves == [] && loads == 0
    {
      stored := initial;
      saves := [];
      loads := 0;
    }

    method LoadToDoItems() returns (items: seq<ToDoItem>)
      modifies this`loads
      ensures items == stored
      ensures loads == old(loads) + 1
    {
      items := stored;
      loads := loads + 1;
    }

    method SaveToDoItems(items: seq<ToDoItem>)
      modifies this`stored, this`saves
      ensures stored == items
      ensures saves == old(saves) + [items]
    {
      stored := items;
      saves := saves + [items];
    }
  }
}
