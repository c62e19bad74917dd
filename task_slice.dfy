/** The task store: one list of tasks, starting empty, changed by the three
    reducers addTask, toggleTask and deleteTask. */
module TaskSlice {
  import opened TaskTypes

  // ---------------------------------------------------------------------
  // Specification functions over the list of tasks
  // ---------------------------------------------------------------------

  /** The ids present in a list of tasks. */
  function Ids(s: seq<Task>): set<string>
  {
    set i | 0 <= i < |s| :: s[i].id
  }

  /** The number of tasks in `s` whose id is `id`. */
  function CountId(s: seq<Task>, id: string): nat
  {
    if s == [] then 0
    else CountId(s[..|s| - 1], id) + (if s[|s| - 1].id == id then 1 else 0)
  }

  /** `s` with the first task whose id is `id` toggled; `s` itself when no
      task has that id. */
  function ToggleFirst(s: seq<Task>, id: string): seq<Task>
  {
    if s == [] then []
    else if s[0].id == id then [Toggled(s[0])] + s[1..]
    else [s[0]] + ToggleFirst(s[1..], id)
  }

  /** The tasks of `s` whose id differs from `id`, in their original order. */
  function Without(s: seq<Task>, id: string): seq<Task>
  {
    if s == [] then []
    else Without(s[..|s| - 1], id) + (if s[|s| - 1].id == id then [] else [s[|s| - 1]])
  }

  /** `k` is the first index of `s` whose task has the id. */
  ghost predicate IsFirstMatch(s: seq<Task>, id: string, k: int)
  {
    0 <= k < |s| && s[k].id == id && forall j :: 0 <= j < k ==> s[j].id != id
  }

  /** No two tasks in the list share an id. The store does not enforce this. */
  ghost predicate UniqueIds(s: seq<Task>)
  {
    forall i, j :: 0 <= i < j < |s| ==> s[i].id != s[j].id
  }

  // ---------------------------------------------------------------------
  // Lemmas: counting and ids
  // ---------------------------------------------------------------------

  /** No task has the id exactly when the id is not in the set of ids, and
      exactly when it is counted zero times. */
  lemma {:induction false} CountIdZero(s: seq<Task>, id: string)
    ensures CountId(s, id) == 0 <==> id !in Ids(s)
    ensures id !in Ids(s) <==> forall j :: 0 <= j < |s| ==> s[j].id != id
  {
    if s != [] {
      var init := s[..|s| - 1];
      CountIdZero(init, id);
      assert Ids(s) == Ids(init) + {s[|s| - 1].id} by {
        forall x | x in Ids(s) ensures x in Ids(init) + {s[|s| - 1].id} {
          var i :| 0 <= i < |s| && s[i].id == x;
          if i < |s| - 1 { assert init[i] == s[i]; }
        }
        forall x | x in Ids(init) + {s[|s| - 1].id} ensures x in Ids(s) {
          if x in Ids(init) {
            var i :| 0 <= i < |init| && init[i].id == x;
            assert s[i] == init[i];
          } else {
            assert s[|s| - 1].id == x;
          }
        }
      }
    }
  }

  /** With unique ids, an id occurs at most once. */
  lemma {:induction false} UniqueCountAtMostOne(s: seq<Task>, id: string)
    requires UniqueIds(s)
    ensures CountId(s, id) <= 1
  {
    if s != [] {
      var init := s[..|s| - 1];
      assert UniqueIds(init) by {
        forall i, j | 0 <= i < j < |init| ensures init[i].id != init[j].id {
          assert init[i] == s[i] && init[j] == s[j];
        }
      }
      UniqueCountAtMostOne(init, id);
      if s[|s| - 1].id == id {
        CountIdZero(init, id);
        forall j | 0 <= j < |init| ensures init[j].id != id {
          assert init[j] == s[j];
        }
      }
    }
  }

  // ---------------------------------------------------------------------
  // Lemmas: addTask
  // ---------------------------------------------------------------------

  /** Appending a task adds its id to the ids and one to its id's count. */
  lemma AppendIds(s: seq<Task>, t: Task)
    ensures Ids(s + [t]) == Ids(s) + {t.id}
    ensures CountId(s + [t], t.id) == CountId(s, t.id) + 1
  {
    var r := s + [t];
    assert r[..|r| - 1] == s;
    forall x | x in Ids(r) ensures x in Ids(s) + {t.id} {
      var i :| 0 <= i < |r| && r[i].id == x;
      if i < |s| { assert r[i] == s[i]; }
    }
    forall x | x in Ids(s) ensures x in Ids(r) {
      var i :| 0 <= i < |s| && s[i].id == x;
      assert r[i] == s[i];
    }
    assert r[|s|].id == t.id;
  }

  /** Appending keeps ids unique exactly when the new id is not yet present:
      addTask itself makes no such check. */
  lemma AppendUnique(s: seq<Task>, t: Task)
    ensures UniqueIds(s + [t]) <==> UniqueIds(s) && t.id !in Ids(s)
  {
    var r := s + [t];
    if UniqueIds(r) {
      forall i, j | 0 <= i < j < |s| ensures s[i].id != s[j].id {
        assert r[i] == s[i] && r[j] == s[j];
      }
    }
    if t.id in Ids(s) {
      var i :| 0 <= i < |s| && s[i].id == t.id;
      assert r[i].id == r[|s|].id;
    }
    if UniqueIds(s) && t.id !in Ids(s) {
      forall i, j | 0 <= i < j < |r| ensures r[i].id != r[j].id {
        if j == |s| {
          assert r[i] == s[i];
          assert s[i].id in Ids(s);
        } else {
          assert r[i] == s[i] && r[j] == s[j];
        }
      }
    }
  }

  // ---------------------------------------------------------------------
  // Lemmas: toggleTask
  // ---------------------------------------------------------------------

  /** When no task has the id, toggling leaves the list as it was. */
  lemma {:induction false} ToggleFirstAbsent(s: seq<Task>, id: string)
    requires forall j :: 0 <= j < |s| ==> s[j].id != id
    ensures ToggleFirst(s, id) == s
  {
    if s != [] {
      ToggleFirstAbsent(s[1..], id);
    }
  }

  /** When `k` is the first index with the id, toggling changes the task at
      `k` only, and only its completion flag; the length, the order, every
      other task and every later task with the same id stay as they were. */
  lemma {:induction false} ToggleFirstAt(s: seq<Task>, id: string, k: nat)
    requires k < |s| && s[k].id == id
    requires forall j :: 0 <= j < k ==> s[j].id != id
    ensures ToggleFirst(s, id) == s[k := Toggled(s[k])]
  {
    if k == 0 {
      assert ToggleFirst(s, id) == [Toggled(s[0])] + s[1..];
    } else {
      var tail := s[1..];
      ToggleFirstAt(tail, id, k - 1);
      assert ToggleFirst(s, id) == [s[0]] + tail[k - 1 := Toggled(tail[k - 1])];
    }
  }

  /** Toggling the same id twice in a row restores the original list. */
  lemma {:induction false} ToggleFirstTwice(s: seq<Task>, id: string)
    ensures ToggleFirst(ToggleFirst(s, id), id) == s
  {
    if s != [] {
      if s[0].id == id {
        ToggledTwice(s[0]);
        assert ToggleFirst(s, id)[1..] == s[1..];
      } else {
        ToggleFirstTwice(s[1..], id);
        assert ToggleFirst(s, id)[1..] == ToggleFirst(s[1..], id);
      }
    }
  }

  /** Toggling neither adds nor removes any id or task. */
  lemma {:induction false} ToggleFirstIds(s: seq<Task>, id: string)
    ensures |ToggleFirst(s, id)| == |s|
    ensures forall j :: 0 <= j < |s| ==> ToggleFirst(s, id)[j].id == s[j].id
    ensures Ids(ToggleFirst(s, id)) == Ids(s)
    ensures UniqueIds(ToggleFirst(s, id)) <==> UniqueIds(s)
  {
    if s != [] {
      ToggleFirstIds(s[1..], id);
    }
    var r := ToggleFirst(s, id);
    assert forall j :: 0 <= j < |s| ==> r[j].id == s[j].id;
    forall x | x in Ids(r) ensures x in Ids(s) {
      var i :| 0 <= i < |r| && r[i].id == x;
    }
    forall x | x in Ids(s) ensures x in Ids(r) {
      var i :| 0 <= i < |s| && s[i].id == x;
      assert r[i].id == x;
    }
  }

  /** When the id is present, some first index holds it, and toggling flips
      `completed` of the task there and changes nothing else. */
  lemma {:induction false} ToggleFirstPresent(s: seq<Task>, id: string)
    requires id in Ids(s)
    ensures exists k :: IsFirstMatch(s, id, k) && ToggleFirst(s, id) == s[k := Toggled(s[k])]
  {
    var k := 0;
    while s[k].id != id
      invariant k < |s|
      invariant forall j :: 0 <= j < k ==> s[j].id != id
      decreases |s| - k
    {
      if k + 1 == |s| {
        CountIdZero(s, id);
        assert false;
      }
      k := k + 1;
    }
    ToggleFirstAt(s, id, k);
  }

  // ---------------------------------------------------------------------
  // Lemmas: deleteTask
  // ---------------------------------------------------------------------

  /** Deleting distributes over concatenation: the tasks kept from the
      front stay in front of the tasks kept from the back. */
  lemma {:induction false} WithoutAppend(a: seq<Task>, b: seq<Task>, id: string)
    ensures Without(a + b, id) == Without(a, id) + Without(b, id)
  {
    if b == [] {
      assert a + b == a;
    } else {
      var binit := b[..|b| - 1];
      assert (a + b)[..|a + b| - 1] == a + binit;
      WithoutAppend(a, binit, id);
    }
  }

  /** Each task occurs in the result as often as in the list when its id
      differs from the deleted one, and not at all when it matches. */
  lemma {:induction false} WithoutMultiplicity(s: seq<Task>, id: string, t: Task)
    ensures multiset(Without(s, id))[t] == if t.id == id then 0 else multiset(s)[t]
  {
    if s != [] {
      var init := s[..|s| - 1];
      WithoutMultiplicity(init, id, t);
      assert s == init + [s[|s| - 1]];
    }
  }

  /** No task with the deleted id remains, and a task is kept exactly when
      it was present with another id. */
  lemma WithoutMembers(s: seq<Task>, id: string)
    ensures forall t :: t in Without(s, id) <==> t in s && t.id != id
  {
    forall t ensures t in Without(s, id) <==> t in s && t.id != id {
      WithoutMultiplicity(s, id, t);
    }
  }

  /** The new length is the old length minus the number of tasks with the id. */
  lemma {:induction false} WithoutLength(s: seq<Task>, id: string)
    ensures |Without(s, id)| == |s| - CountId(s, id)
  {
    if s != [] {
      WithoutLength(s[..|s| - 1], id);
    }
  }

  /** Deleting an absent id is a no-op. */
  lemma {:induction false} WithoutAbsent(s: seq<Task>, id: string)
    requires id !in Ids(s)
    ensures Without(s, id) == s
  {
    if s != [] {
      var init := s[..|s| - 1];
      assert s[|s| - 1].id in Ids(s);
      assert Ids(init) <= Ids(s) by {
        forall x | x in Ids(init) ensures x in Ids(s) {
          var i :| 0 <= i < |init| && init[i].id == x;
          assert s[i] == init[i];
        }
      }
      WithoutAbsent(init, id);
    }
  }

  /** Deleting removes exactly the id from the set of ids. */
  lemma WithoutIds(s: seq<Task>, id: string)
    ensures Ids(Without(s, id)) == Ids(s) - {id}
  {
    var r := Without(s, id);
    WithoutMembers(s, id);
    forall x | x in Ids(r) ensures x in Ids(s) - {id} {
      var i :| 0 <= i < |r| && r[i].id == x;
      assert r[i] in r;
      var j :| 0 <= j < |s| && s[j] == r[i];
    }
    forall x | x in Ids(s) - {id} ensures x in Ids(r) {
      var i :| 0 <= i < |s| && s[i].id == x;
      assert s[i] in s;
      var j :| 0 <= j < |r| && r[j] == s[i];
    }
  }

  /** Deleting twice with the same id is the same as deleting once. */
  lemma WithoutIdempotent(s: seq<Task>, id: string)
    ensures Without(Without(s, id), id) == Without(s, id)
  {
    WithoutIds(s, id);
    WithoutAbsent(Without(s, id), id);
  }

  /** Deleting keeps ids unique. */
  lemma {:induction false} WithoutUnique(s: seq<Task>, id: string)
    requires UniqueIds(s)
    ensures UniqueIds(Without(s, id))
  {
    if s != [] {
      var init := s[..|s| - 1];
      var last := s[|s| - 1];
      assert s == init + [last];
      assert UniqueIds(init) && last.id !in Ids(init) by {
        AppendUnique(init, last);
      }
      WithoutUnique(init, id);
      if last.id != id {
        WithoutIds(init, id);
        AppendUnique(Without(init, id), last);
      }
    }
  }

  /** With unique ids, deleting a present id removes exactly one task. */
  lemma UniqueDeleteRemovesOne(s: seq<Task>, id: string)
    requires UniqueIds(s) && id in Ids(s)
    ensures |Without(s, id)| == |s| - 1
  {
    WithoutLength(s, id);
    UniqueCountAtMostOne(s, id);
    CountIdZero(s, id);
  }

  // ---------------------------------------------------------------------
  // The two searches the reducers run over the list
  // ---------------------------------------------------------------------

  /** The first index whose task has the id, as `Array.prototype.find`
      walks the list from the front. */
  method Find(s: seq<Task>, id: string) returns (found: bool, k: nat)
    ensures found ==> k < |s| && s[k].id == id
    ensures found ==> forall j :: 0 <= j < k ==> s[j].id != id
    ensures !found <==> id !in Ids(s)
  {
    k := 0;
    while k < |s|
      invariant k <= |s|
      invariant forall j :: 0 <= j < k ==> s[j].id != id
    {
      if s[k].id == id {
        assert s[k].id in Ids(s);
        return true, k;
      }
      k := k + 1;
    }
    CountIdZero(s, id);
    found := false;
  }

  /** The tasks whose id differs from the given one, in order, as
      `Array.prototype.filter` builds them. */
  method FilterOut(s: seq<Task>, id: string) returns (r: seq<Task>)
    ensures r == Without(s, id)
  {
    r := [];
    var i := 0;
    while i < |s|
      invariant i <= |s|
      invariant r == Without(s[..i], id)
    {
      assert s[..i + 1][..i] == s[..i];
      if s[i].id != id {
        r := r + [s[i]];
      }
      i := i + 1;
    }
    assert s[..i] == s;
  }

  // ---------------------------------------------------------------------
  // The store
  // ---------------------------------------------------------------------

  /** The state held by the task slice: a single list of tasks. */
  class TaskStore {
    var tasks: seq<Task>

    /** The initial state holds no tasks. */
    constructor ()
      ensures tasks == []
    {
      tasks := [];
    }

    /** addTask: appends the task as given, with no check of its id or title. */
    method AddTask(t: Task)
      modifies this
      ensures tasks == old(tasks) + [t]
    {
      tasks := tasks + [t];
    }

    /** toggleTask: flips `completed` on the first task with the id, if any. */
    method ToggleTask(id: string)
      modifies this
      ensures tasks == ToggleFirst(old(tasks), id)
      ensures id !in Ids(old(tasks)) ==> tasks == old(tasks)
      ensures id in Ids(old(tasks)) ==>
        exists k :: IsFirstMatch(old(tasks), id, k) && tasks == old(tasks)[k := Toggled(old(tasks)[k])]
    {
      var found, k := Find(tasks, id);
      if found {
        ToggleFirstAt(tasks, id, k);
        tasks := tasks[k := Toggled(tasks[k])];
      } else {
        CountIdZero(tasks, id);
        ToggleFirstAbsent(tasks, id);
      }
    }

    /** deleteTask: replaces the list with its tasks whose id differs. */
    method DeleteTask(id: string)
      modifies this
      ensures tasks == Without(old(tasks), id)
    {
      tasks := FilterOut(tasks, id);
    }
  }
}
