/**
 * The in-memory task store of the todo application (`Task` and `TaskService`
 * in todo.py): a map from id to task plus a counter that hands out ids
 * 1, 2, 3, ... and never goes back, so a deleted id is never issued again.
 */
module Tasks {
  import opened Wrappers
  import opened Text

  /** One todo item. Tasks are values; the store replaces them on every change. */
  datatype Task = Task(id: int, description: string, status: bool)

  /** The `ValueError` raised for a blank description. */
  datatype ServiceError = InvalidArgument

  /** A description as the store keeps it: not empty, no surrounding whitespace. */
  predicate IsCleanDescription(d: string) {
    d != [] && IsTrimmed(d)
  }

  /**
   * The store's invariant: every key is an id already issued (between 1 and
   * the counter, exclusive), it is the id of the task filed under it, and
   * every description is clean.
   */
  ghost predicate StoreInvariant(store: map<int, Task>, nextId: int) {
    && 1 <= nextId
    && forall id :: id in store ==>
         1 <= id < nextId && store[id].id == id && IsCleanDescription(store[id].description)
  }

  /** Filing a clean task under the counter and moving the counter on keeps the invariant. */
  lemma AddKeepsInvariant(store: map<int, Task>, nextId: int, t: Task)
    requires StoreInvariant(store, nextId)
    requires t.id == nextId && IsCleanDescription(t.description)
    ensures nextId !in store
    ensures StoreInvariant(store[nextId := t], nextId + 1)
  {
    var after := store[nextId := t];
    forall id | id in after
      ensures 1 <= id < nextId + 1 && after[id].id == id && IsCleanDescription(after[id].description)
    {
      if id != nextId { assert after[id] == store[id]; }
    }
  }

  /** Replacing a stored task by a clean task with the same id keeps the invariant. */
  lemma ReplaceKeepsInvariant(store: map<int, Task>, nextId: int, t: Task)
    requires StoreInvariant(store, nextId)
    requires t.id in store && IsCleanDescription(t.description)
    ensures StoreInvariant(store[t.id := t], nextId)
  {
    var after := store[t.id := t];
    forall id | id in after
      ensures 1 <= id < nextId && after[id].id == id && IsCleanDescription(after[id].description)
    {
      if id != t.id { assert after[id] == store[id]; }
    }
  }

  /** A set is empty or has a member. */
  lemma EmptyOrMember(s: set<int>)
    ensures s == {} || exists x :: x in s
  {
    if forall x :: x !in s {
      assert s == {};
    }
  }

  /** Every finite, non-empty set of integers has a least element. */
  lemma {:induction false} MinimumExists(s: set<int>)
    requires s != {}
    ensures exists m :: m in s && forall k :: k in s ==> m <= k
  {
    EmptyOrMember(s);
    var x :| x in s;
    var rest := s - {x};
    if rest == {} {
      forall k | k in s ensures x <= k {
        assert k !in rest;
      }
      assert x in s;
    } else {
      MinimumExists(rest);
      var m :| m in rest && forall k :: k in rest ==> m <= k;
      var least := if x < m then x else m;
      forall k | k in s ensures least <= k {
        if k != x { assert k in rest; }
      }
      assert least in s;
    }
  }

  /** The least element of a non-empty set of integers. */
  function Least(s: set<int>): (m: int)
    requires s != {}
    ensures m in s && forall k :: k in s ==> m <= k
  {
    MinimumExists(s);
    var m :| m in s && forall k :: k in s ==> m <= k;
    m
  }

  /** Strictly increasing integers. */
  predicate Ascending(r: seq<int>) {
    forall i, j :: 0 <= i < j < |r| ==> r[i] < r[j]
  }

  /** Putting the least element of a set in front of the rest of it in order gives the whole set in order. */
  lemma PrependLeast(m: int, rest: seq<int>, s: set<int>)
    requires m in s && forall k :: k in s ==> m <= k
    requires Ascending(rest) && forall k :: k in rest <==> k in s - {m}
    ensures Ascending([m] + rest)
    ensures forall k :: k in [m] + rest <==> k in s
  {
    var r := [m] + rest;
    forall i, j | 0 <= i < j < |r| ensures r[i] < r[j] {
      assert r[j] == rest[j - 1] && rest[j - 1] in s - {m};
      if i > 0 { assert r[i] == rest[i - 1]; }
    }
    forall k ensures k in r <==> k in s {
      assert k in r <==> k == m || k in rest;
    }
  }

  /** The elements of a set of ids in ascending order (what `sorted` does to the ids). */
  function SortedKeys(s: set<int>): (r: seq<int>)
    ensures |r| == |s|
    ensures forall k :: k in r <==> k in s
    ensures Ascending(r)
    decreases |s|
  {
    if s == {} then []
    else
      var m := Least(s);
      assert |s - {m}| == |s| - 1;
      var rest := SortedKeys(s - {m});
      PrependLeast(m, rest, s);
      [m] + rest
  }

  /** Every task is filed under its own id. */
  predicate KeysAreIds(tasks: map<int, Task>) {
    forall id :: id in tasks ==> tasks[id].id == id
  }

  /** The tasks filed under the given keys, in the order of the keys. */
  function LookUp(tasks: map<int, Task>, ids: seq<int>): (r: seq<Task>)
    requires forall i :: 0 <= i < |ids| ==> ids[i] in tasks
    ensures |r| == |ids| && forall i :: 0 <= i < |ids| ==> r[i] == tasks[ids[i]]
  {
    if ids == [] then [] else [tasks[ids[0]]] + LookUp(tasks, ids[1..])
  }

  /** Looking up ascending keys, each key once, lists every task once, in ascending id order. */
  lemma LookUpInOrder(tasks: map<int, Task>, ids: seq<int>, r: seq<Task>)
    requires KeysAreIds(tasks)
    requires Ascending(ids) && forall k :: k in ids <==> k in tasks
    requires |r| == |ids| && forall i :: 0 <= i < |ids| ==> ids[i] in tasks && r[i] == tasks[ids[i]]
    ensures forall i :: 0 <= i < |r| ==> r[i].id in tasks && tasks[r[i].id] == r[i]
    ensures forall id :: id in tasks ==> tasks[id] in r
    ensures forall i, j :: 0 <= i < j < |r| ==> r[i].id < r[j].id
  {
    forall i | 0 <= i < |r| ensures r[i].id == ids[i] {
    }
    forall id | id in tasks ensures tasks[id] in r {
      var i :| 0 <= i < |ids| && ids[i] == id;
      assert r[i] == tasks[id];
    }
  }

  /** `r` lists the tasks of a map, each exactly once, in strictly ascending id order. */
  predicate IsListing(tasks: map<int, Task>, r: seq<Task>) {
    && |r| == |tasks|
    && (forall i :: 0 <= i < |r| ==> r[i].id in tasks && tasks[r[i].id] == r[i])
    && (forall id :: id in tasks ==> tasks[id] in r)
    && (forall i, j :: 0 <= i < j < |r| ==> r[i].id < r[j].id)
  }

  /** Two listings of the same tasks start with the same task, the one with the least id. */
  lemma ListingsShareFirst(tasks: map<int, Task>, r1: seq<Task>, r2: seq<Task>)
    requires IsListing(tasks, r1) && IsListing(tasks, r2) && r1 != []
    ensures r1[0] == r2[0]
  {
    var j :| 0 <= j < |r2| && r2[j] == tasks[r1[0].id];
    var k :| 0 <= k < |r1| && r1[k] == tasks[r2[0].id];
    assert r2[0].id <= r2[j].id && r1[0].id <= r1[k].id;
  }

  /** Dropping the first task of a listing lists the other tasks. */
  lemma ListingTail(tasks: map<int, Task>, r: seq<Task>)
    requires KeysAreIds(tasks) && IsListing(tasks, r) && r != []
    ensures KeysAreIds(tasks - {r[0].id}) && IsListing(tasks - {r[0].id}, r[1..])
  {
    var rest := tasks - {r[0].id};
    var tail := r[1..];
    assert |rest| == |tasks| - 1;
    forall i | 0 <= i < |tail| ensures tail[i].id in rest && rest[tail[i].id] == tail[i] {
      assert tail[i] == r[i + 1] && r[0].id < r[i + 1].id;
    }
    forall id | id in rest ensures rest[id] in tail {
      var k :| 0 <= k < |r| && r[k] == tasks[id];
      assert k != 0;
      assert tail[k - 1] == rest[id];
    }
  }

  /** There is only one such listing: two listings of the same tasks are equal. */
  lemma {:induction false} ListingUnique(tasks: map<int, Task>, r1: seq<Task>, r2: seq<Task>)
    requires KeysAreIds(tasks)
    requires IsListing(tasks, r1) && IsListing(tasks, r2)
    ensures r1 == r2
    decreases |tasks|
  {
    if r1 != [] {
      ListingsShareFirst(tasks, r1, r2);
      ListingTail(tasks, r1);
      ListingTail(tasks, r2);
      ListingUnique(tasks - {r1[0].id}, r1[1..], r2[1..]);
      SameHeadAndTail(r1, r2);
    }
  }

  /** Two non-empty sequences with the same first element and the same rest are equal. */
  lemma SameHeadAndTail<T>(s1: seq<T>, s2: seq<T>)
    requires s1 != [] && s2 != [] && s1[0] == s2[0] && s1[1..] == s2[1..]
    ensures s1 == s2
  {
    assert s1 == [s1[0]] + s1[1..] && s2 == [s2[0]] + s2[1..];
  }

  /** `sorted(tasks.values(), key=lambda t: t.id)` over a map whose tasks are filed under their ids. */
  function SortedById(tasks: map<int, Task>): (r: seq<Task>)
    requires KeysAreIds(tasks)
    ensures IsListing(tasks, r)
  {
    var ids := SortedKeys(tasks.Keys);
    assert |ids| == |tasks.Keys| == |tasks|;
    assert forall i :: 0 <= i < |ids| ==> ids[i] in tasks;
    var r := LookUp(tasks, ids);
    LookUpInOrder(tasks, ids, r);
    r
  }

  class TaskService {
    /** `_task_store` */
    var store: map<int, Task>
    /** `_next_id`: the id the next successful add will get. */
    var nextId: int

    ghost predicate Valid()
      reads this
    {
      StoreInvariant(store, nextId)
    }

    /**
     * A service over the given store, whose first id is 1. The counter is not
     * derived from the store, so only an empty store keeps the invariant: a
     * task already filed under 1 would be overwritten by the first add.
     */
    constructor (taskStore: map<int, Task>)
      requires taskStore == map[]
      ensures Valid()
      ensures store == taskStore && nextId == 1
    {
      store := taskStore;
      nextId := 1;
    }

    /** `_generate_id`: hands out the counter and moves it on. */
    method GenerateId() returns (id: int)
      modifies this`nextId
      ensures id == old(nextId) && nextId == old(nextId) + 1
    {
      id := nextId;
      nextId := nextId + 1;
    }

    /**
     * `add_task`: a blank description fails before an id is drawn; otherwise the
     * stripped description is filed, incomplete, under a fresh id.
     */
    method AddTask(description: string) returns (r: Result<Task, ServiceError>)
      requires Valid()
      modifies this
      ensures Valid()
      ensures IsBlank(description) ==>
        r == Failure(InvalidArgument) && store == old(store) && nextId == old(nextId)
      ensures !IsBlank(description) ==>
        && r == Success(Task(old(nextId), Strip(description), false))
        && old(nextId) !in old(store)
        && (forall id :: id in old(store) ==> id < old(nextId))
        && store == old(store)[old(nextId) := r.value]
        && nextId == old(nextId) + 1
    {
      StripIsEmptyIffBlank(description);
      if description == [] || Strip(description) == [] {
        return Failure(InvalidArgument);
      }
      var id := GenerateId();
      var task := Task(id, Strip(description), false);
      AddKeepsInvariant(store, id, task);
      store := store[task.id := task];
      return Success(task);
    }

    /**
     * `get_all_tasks`, that is `sorted(tasks.values(), key=lambda t: t.id)`:
     * exactly the stored tasks, each once, in strictly ascending id order; the
     * store is left as it is.
     */
    method GetAllTasks() returns (r: seq<Task>)
      requires Valid()
      ensures IsListing(store, r)
    {
      r := SortedById(store);
    }

    /**
     * `update_task`: an unknown id is reported (`None`) before the description
     * is looked at; a blank description then fails; otherwise only that task's
     * description changes, to the stripped text.
     */
    method UpdateTask(taskId: int, newDescription: string) returns (r: Result<Option<Task>, ServiceError>)
      requires Valid()
      modifies this
      ensures Valid() && nextId == old(nextId)
      ensures taskId !in old(store) ==> r == Success(None) && store == old(store)
      ensures taskId in old(store) && IsBlank(newDescription) ==>
        r == Failure(InvalidArgument) && store == old(store)
      ensures taskId in old(store) && !IsBlank(newDescription) ==>
        var t := old(store)[taskId].(description := Strip(newDescription));
        r == Success(Some(t)) && store == old(store)[taskId := t]
    {
      if taskId !in store {
        return Success(None);
      }
      StripIsEmptyIffBlank(newDescription);
      if newDescription == [] || Strip(newDescription) == [] {
        return Failure(InvalidArgument);
      }
      var task := store[taskId];
      task := task.(description := Strip(newDescription));
      ReplaceKeepsInvariant(store, nextId, task);
      store := store[taskId := task];
      return Success(Some(task));
    }

    /** `delete_task`: true exactly when the id was stored; the id is gone afterwards and the counter stays. */
    method DeleteTask(taskId: int) returns (deleted: bool)
      requires Valid()
      modifies this
      ensures Valid()
      ensures deleted <==> taskId in old(store)
      ensures store == old(store) - {taskId} && nextId == old(nextId)
    {
      deleted := taskId in store;
      store := store - {taskId};
    }

    /** `mark_complete` */
    method MarkComplete(taskId: int) returns (r: Option<Task>)
      requires Valid()
      modifies this
      ensures Valid() && nextId == old(nextId)
      ensures taskId !in old(store) ==> r == None && store == old(store)
      ensures taskId in old(store) ==>
        r == Some(old(store)[taskId].(status := true)) && store == old(store)[taskId := r.value]
    {
      r := UpdateStatus(taskId, true);
    }

    /** `mark_incomplete` */
    method MarkIncomplete(taskId: int) returns (r: Option<Task>)
      requires Valid()
      modifies this
      ensures Valid() && nextId == old(nextId)
      ensures taskId !in old(store) ==> r == None && store == old(store)
      ensures taskId in old(store) ==>
        r == Some(old(store)[taskId].(status := false)) && store == old(store)[taskId := r.value]
    {
      r := UpdateStatus(taskId, false);
    }

    /** `_update_status`: sets the status of one stored task; `None` for an unknown id. */
    method UpdateStatus(taskId: int, status: bool) returns (r: Option<Task>)
      requires Valid()
      modifies this
      ensures Valid() && nextId == old(nextId)
      ensures taskId !in old(store) ==> r == None && store == old(store)
      ensures taskId in old(store) ==>
        r == Some(old(store)[taskId].(status := status)) && store == old(store)[taskId := r.value]
    {
      if taskId !in store {
        return None;
      }
      var task := store[taskId].(status := status);
      ReplaceKeepsInvariant(store, nextId, task);
      store := store[taskId := task];
      return Some(task);
    }
  }

  /**
   * A session on a fresh store, for any non-blank descriptions: two adds, a delete
   * of the first task, two more adds. Ids go on from the counter; the deleted
   * id 1 is not issued again and stays absent.
   */
  method DeletedIdIsNotReused(d1: string, d2: string, d3: string, d4: string) returns (ids: seq<int>, present: seq<bool>)
    requires !IsBlank(d1) && !IsBlank(d2) && !IsBlank(d3) && !IsBlank(d4)
    ensures ids == [1, 2, 3, 4]
    ensures present == [false, true, true, true]
  {
    var service := new TaskService(map[]);
    var first := service.AddTask(d1);
    var second := service.AddTask(d2);
    var gone := service.DeleteTask(1);
    var third := service.AddTask(d3);
    var fourth := service.AddTask(d4);
    ids := [first.value.id, second.value.id, third.value.id, fourth.value.id];
    present := [1 in service.store, 2 in service.store, 3 in service.store, 4 in service.store];
  }

  /** Tasks are listed by id, that is in the order they were added, for any clean descriptions. */
  method ListedInIdOrder(d1: string, d2: string, d3: string) returns (listed: seq<string>)
    requires IsCleanDescription(d1) && IsCleanDescription(d2) && IsCleanDescription(d3)
    ensures listed == [d1, d2, d3]
  {
    StripOfTrimmed(d1);
    StripOfTrimmed(d2);
    StripOfTrimmed(d3);
    var service := new TaskService(map[]);
    var a := service.AddTask(d1);
    var b := service.AddTask(d2);
    var c := service.AddTask(d3);
    var tasks := service.GetAllTasks();
    ListingOfThree(service.store, tasks, d1, d2, d3);
    listed := [tasks[0].description, tasks[1].description, tasks[2].description];
  }

  /** The listing of the tasks filed under 1, 2 and 3, in ascending id order, is those tasks in that order. */
  lemma ListingOfThree(filed: map<int, Task>, tasks: seq<Task>, d1: string, d2: string, d3: string)
    requires filed == map[1 := Task(1, d1, false)][2 := Task(2, d2, false)][3 := Task(3, d3, false)]
    requires IsListing(filed, tasks)
    ensures tasks == [Task(1, d1, false), Task(2, d2, false), Task(3, d3, false)]
  {
    assert filed.Keys == {1, 2, 3};
    assert |tasks| == 3;
    assert tasks[0].id in filed.Keys && tasks[1].id in filed.Keys && tasks[2].id in filed.Keys;
    assert tasks[0].id < tasks[1].id < tasks[2].id;
  }

  /** Completing a task and then marking it incomplete leaves it incomplete; an unknown id is not found. */
  method CompleteThenIncomplete(d: string) returns (status: bool, unknown: Option<Task>)
    requires !IsBlank(d)
    ensures !status && unknown == None
  {
    var service := new TaskService(map[]);
    var t := service.AddTask(d);
    var done := service.MarkComplete(1);
    var undone := service.MarkIncomplete(1);
    status := undone.value.status;
    unknown := service.MarkComplete(999);
  }
}
