// To-do items and the pure list edits that ToDoListViewModel performs on them:
// the first-match lookup behind `toggleTodoItemCompletion`, the all-match
// removal behind `removeTodoItem`, and the done/undone views of `applyFilter`.

module ToDoItems {
  import opened Filtering

  /** Identifier of a to-do item. Nothing makes identifiers unique in a list. */
  type Id = int

  /** A to-do item. `details` stands for the descriptive fields (title,
      priority, category) that these operations carry along untouched. */
  datatype ToDoItem = ToDoItem(id: Id, isDone: bool, details: string)

  datatype Option<T> = None | Some(value: T)

  /** `item` with its completion flag negated (Swift's `isDone.toggle()`). */
  function Flipped(item: ToDoItem): (r: ToDoItem)
    ensures r.isDone != item.isDone
    ensures r.id == item.id && r.details == item.details
  {
    item.(isDone := !item.isDone)
  }

  predicate HasId(items: seq<ToDoItem>, id: Id)
  {
    exists j :: 0 <= j < |items| && items[j].id == id
  }

  /** Position `j` holds the first item of the list whose identifier is `id`. */
  predicate IsFirstWithId(items: seq<ToDoItem>, j: int, id: Id)
  {
    0 <= j < |items| && items[j].id == id &&
    forall k :: 0 <= k < j ==> items[k].id != id
  }

  /** Swift's `firstIndex(where: { $0.id == id })`. */
  function FirstIndex(items: seq<ToDoItem>, id: Id): (r: Option<nat>)
    ensures r.Some? ==> IsFirstWithId(items, r.value, id)
    ensures r.None? <==> !HasId(items, id)
    decreases |items|
  {
    if items == [] then None
    else if items[0].id == id then Some(0)
    else match FirstIndex(items[1..], id)
      case None => None
      case Some(k) => Some(k + 1)
  }

  /** The list after toggling completion of the first item whose identifier
      is `id`; the list itself when there is none. */
  function ToggleFirst(items: seq<ToDoItem>, id: Id): (r: seq<ToDoItem>)
    ensures |r| == |items|
    ensures forall j :: 0 <= j < |items| ==>
      r[j] == if IsFirstWithId(items, j, id) then Flipped(items[j]) else items[j]
  {
    match FirstIndex(items, id)
    case None => items
    case Some(i) => items[i := Flipped(items[i])]
  }

  /** The list without any item whose identifier is `id`
      (Swift's `removeAll { $0.id == id }`). */
  function Removed(items: seq<ToDoItem>, id: Id): (r: seq<ToDoItem>)
    ensures forall x :: x in r <==> x in items && x.id != id
    ensures forall x :: multiset(r)[x] == if x.id != id then multiset(items)[x] else 0
    ensures IsSubsequence(r, items)
  {
    FilterMultiset(items, (x: ToDoItem) => x.id != id);
    FilterIsSubsequence(items, (x: ToDoItem) => x.id != id);
    Filter(items, (x: ToDoItem) => x.id != id)
  }

  /** The items that are done, in list order (`filter { $0.isDone == true }`). */
  function Completed(items: seq<ToDoItem>): (r: seq<ToDoItem>)
    ensures forall x :: x in r <==> x in items && x.isDone
    ensures forall x :: multiset(r)[x] == if x.isDone then multiset(items)[x] else 0
    ensures IsSubsequence(r, items)
  {
    FilterMultiset(items, (x: ToDoItem) => x.isDone);
    FilterIsSubsequence(items, (x: ToDoItem) => x.isDone);
    Filter(items, (x: ToDoItem) => x.isDone)
  }

  /** The items that are not done, in list order (`filter { $0.isDone == false }`). */
  function Pending(items: seq<ToDoItem>): (r: seq<ToDoItem>)
    ensures forall x :: x in r <==> x in items && !x.isDone
    ensures forall x :: multiset(r)[x] == if x.isDone then 0 else multiset(items)[x]
    ensures IsSubsequence(r, items)
  {
    FilterMultiset(items, (x: ToDoItem) => !x.isDone);
    FilterIsSubsequence(items, (x: ToDoItem) => !x.isDone);
    Filter(items, (x: ToDoItem) => !x.isDone)
  }

  /** The list `applyFilter(at: index)` shows after loading `loaded`:
      1 selects the done items, 2 the undone ones, any other index all. */
  function Shown(loaded: seq<ToDoItem>, index: int): (r: seq<ToDoItem>)
    ensures IsSubsequence(r, loaded)
    ensures index != 1 && index != 2 ==> r == loaded
    ensures index == 1 ==> forall x :: multiset(r)[x] == if x.isDone then multiset(loaded)[x] else 0
    ensures index == 2 ==> forall x :: multiset(r)[x] == if x.isDone then 0 else multiset(loaded)[x]
  {
    if index == 1 then Completed(loaded)
    else if index == 2 then Pending(loaded)
    else SubsequenceReflexive(loaded); loaded
  }

  /** Toggling the same item twice gives back the original list. */
  lemma ToggleFirstTwice(items: seq<ToDoItem>, id: Id)
    ensures ToggleFirst(ToggleFirst(items, id), id) == items
  {
  }

  /** Removing the same identifier a second time changes nothing. */
  lemma RemovedIdempotent(items: seq<ToDoItem>, id: Id)
    ensures Removed(Removed(items, id), id) == Removed(items, id)
  {
    FilterIdempotent(items, (x: ToDoItem) => x.id != id);
  }

  /** Removal leaves the list as it is exactly when no item has the identifier. */
  lemma RemovedUnchanged(items: seq<ToDoItem>, id: Id)
    ensures Removed(items, id) == items <==> !HasId(items, id)
  {
    FilterKeepsAll(items, (x: ToDoItem) => x.id != id);
  }

  /** Removal deletes as many items as carry the identifier: every one of them. */
  lemma {:induction false} RemovedCount(items: seq<ToDoItem>, id: Id)
    ensures |Removed(items, id)| == |items| - |Filter(items, (x: ToDoItem) => x.id == id)|
  {
    FilterPartition(items, (x: ToDoItem) => x.id != id, (x: ToDoItem) => x.id == id);
  }

  /** Removal works piecewise: the kept items of a list's front stay in front. */
  lemma RemovedAppend(a: seq<ToDoItem>, b: seq<ToDoItem>, id: Id)
    ensures Removed(a + b, id) == Removed(a, id) + Removed(b, id)
  {
    FilterAppend(a, b, (x: ToDoItem) => x.id != id);
  }

  /** The done and the undone views together account for every loaded item. */
  lemma CompletedPendingPartition(items: seq<ToDoItem>)
    ensures |Completed(items)| + |Pending(items)| == |items|
  {
    FilterPartition(items, (x: ToDoItem) => x.isDone, (x: ToDoItem) => !x.isDone);
  }
}
