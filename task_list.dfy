/**
 * The list values the to-do screen computes: each handler replaces the whole
 * list by a pure expression over the old one (`+` append, `map` with `copy`,
 * `filter`, `count`). This module defines those expressions on `seq<Task>`
 * and proves what they keep.
 */
module TaskList {
  import opened Tasks

  /** Some task in `ts` has this id. */
  predicate HasId(ts: seq<Task>, id: int)
  {
    exists k :: 0 <= k < |ts| && ts[k].id == id
  }

  /** The ids along the list are pairwise distinct. */
  ghost predicate IdsDistinct(ts: seq<Task>)
  {
    forall i, j :: 0 <= i < j < |ts| ==> ts[i].id != ts[j].id
  }

  /** The ids along the list strictly increase: display order is creation order. */
  ghost predicate IdsIncreasing(ts: seq<Task>)
  {
    forall i, j :: 0 <= i < j < |ts| ==> ts[i].id < ts[j].id
  }

  /** Every id was issued by a counter that started at 1 and now stands at `next`. */
  ghost predicate IdsBelow(ts: seq<Task>, next: int)
  {
    forall k :: 0 <= k < |ts| ==> 1 <= ts[k].id < next
  }

  /** `a` is `b` with some elements dropped, the rest in their original order. */
  ghost predicate IsSubsequence(a: seq<Task>, b: seq<Task>)
    decreases |b|
  {
    a == [] || (b != [] && ((a[0] == b[0] && IsSubsequence(a[1..], b[1..])) || IsSubsequence(a, b[1..])))
  }

  lemma IncreasingIsDistinct(ts: seq<Task>)
    requires IdsIncreasing(ts)
    ensures IdsDistinct(ts)
  {
  }

  // ---------------------------------------------------------------- add

  /** `tasks + Task(id, title, description)`. */
  function AddTask(ts: seq<Task>, id: int, title: string, description: string): (r: seq<Task>)
    ensures |r| == |ts| + 1 && r[..|ts|] == ts
    ensures r[|ts|] == NewTask(id, title, description)
  {
    ts + [NewTask(id, title, description)]
  }

  /** An id at or above the counter is not in use, so the new task's id is fresh. */
  lemma CounterIdFresh(ts: seq<Task>, next: int)
    requires IdsBelow(ts, next)
    ensures !HasId(ts, next)
  {
  }

  /** Appending under the counter keeps the id invariant with the counter advanced by one. */
  lemma AddKeepsIds(ts: seq<Task>, next: int, title: string, description: string)
    requires IdsIncreasing(ts) && IdsBelow(ts, next) && 1 <= next
    ensures IdsIncreasing(AddTask(ts, next, title, description))
    ensures IdsBelow(AddTask(ts, next, title, description), next + 1)
  {
  }

  // ---------------------------------------------------------------- toggle

  /** `tasks.map { if (it.id == id) it.copy(isCompleted = checked) else it }`. */
  function SetCompleted(ts: seq<Task>, id: int, checked: bool): (r: seq<Task>)
    ensures |r| == |ts|
    ensures forall k :: 0 <= k < |ts| ==>
      r[k].id == ts[k].id && r[k].title == ts[k].title && r[k].description == ts[k].description
    ensures forall k :: 0 <= k < |ts| ==>
      r[k].isCompleted == (if ts[k].id == id then checked else ts[k].isCompleted)
  {
    if ts == [] then []
    else [if ts[0].id == id then WithCompleted(ts[0], checked) else ts[0]]
         + SetCompleted(ts[1..], id, checked)
  }

  /** Toggling with an id no task has leaves the list as it was. */
  lemma SetCompletedAbsent(ts: seq<Task>, id: int, checked: bool)
    requires !HasId(ts, id)
    ensures SetCompleted(ts, id, checked) == ts
  {
    var r := SetCompleted(ts, id, checked);
    forall k | 0 <= k < |ts| ensures r[k] == ts[k] {
      assert ts[k].id != id;
    }
  }

  /** With distinct ids, toggling replaces exactly the one matching task by its copy. */
  lemma SetCompletedAt(ts: seq<Task>, id: int, checked: bool, k: nat)
    requires IdsDistinct(ts) && k < |ts| && ts[k].id == id
    ensures SetCompleted(ts, id, checked) == ts[k := WithCompleted(ts[k], checked)]
  {
    var r := SetCompleted(ts, id, checked);
    forall j | 0 <= j < |ts| ensures r[j] == ts[k := WithCompleted(ts[k], checked)][j] {
      if j != k {
        assert ts[j].id != id;
      }
    }
  }

  /** The last toggle of an id wins. */
  lemma SetCompletedTwice(ts: seq<Task>, id: int, c: bool, c': bool)
    ensures SetCompleted(SetCompleted(ts, id, c), id, c') == SetCompleted(ts, id, c')
  {
    var r1 := SetCompleted(SetCompleted(ts, id, c), id, c');
    var r2 := SetCompleted(ts, id, c');
    forall k | 0 <= k < |ts| ensures r1[k] == r2[k] {
    }
  }

  /** Checking and then unchecking a task that was open restores the list. */
  lemma CheckUncheckRestores(ts: seq<Task>, id: int)
    requires forall k :: 0 <= k < |ts| && ts[k].id == id ==> !ts[k].isCompleted
    ensures SetCompleted(SetCompleted(ts, id, true), id, false) == ts
  {
    SetCompletedTwice(ts, id, true, false);
    var r := SetCompleted(ts, id, false);
    forall k | 0 <= k < |ts| ensures r[k] == ts[k] {
    }
  }

  /** Toggling keeps ids and their order, so it keeps the id invariant. */
  lemma SetCompletedKeepsIds(ts: seq<Task>, next: int, id: int, checked: bool)
    requires IdsIncreasing(ts) && IdsBelow(ts, next)
    ensures IdsIncreasing(SetCompleted(ts, id, checked))
    ensures IdsBelow(SetCompleted(ts, id, checked), next)
  {
  }

  // ---------------------------------------------------------------- remove

  /** `tasks.filter { it.id != id }`. */
  function RemoveId(ts: seq<Task>, id: int): (r: seq<Task>)
    ensures |r| <= |ts|
    ensures !HasId(r, id)
    ensures !HasId(ts, id) ==> r == ts
  {
    if ts == [] then []
    else if ts[0].id == id then RemoveId(ts[1..], id)
    else [ts[0]] + RemoveId(ts[1..], id)
  }

  /** The filter keeps exactly the tasks whose id differs. */
  lemma {:induction false} RemoveMembers(ts: seq<Task>, id: int)
    ensures forall t :: t in RemoveId(ts, id) <==> t in ts && t.id != id
  {
    if ts != [] {
      RemoveMembers(ts[1..], id);
      assert ts == [ts[0]] + ts[1..];
    }
  }

  /** Filtering a concatenation filters each part. */
  lemma {:induction false} RemoveConcat(a: seq<Task>, b: seq<Task>, id: int)
    ensures RemoveId(a + b, id) == RemoveId(a, id) + RemoveId(b, id)
  {
    if a == [] {
      assert a + b == b;
    } else {
      assert (a + b)[0] == a[0];
      assert (a + b)[1..] == a[1..] + b;
      RemoveConcat(a[1..], b, id);
    }
  }

  /** The remaining tasks keep their original relative order. */
  lemma {:induction false} RemoveIsSubsequence(ts: seq<Task>, id: int)
    ensures IsSubsequence(RemoveId(ts, id), ts)
  {
    if ts != [] {
      RemoveIsSubsequence(ts[1..], id);
      var rest := RemoveId(ts[1..], id);
      if ts[0].id == id {
        SubsequenceOfTail(rest, ts);
      } else {
        assert ([ts[0]] + rest)[1..] == rest;
      }
    }
  }

  lemma SubsequenceOfTail(a: seq<Task>, b: seq<Task>)
    requires b != [] && IsSubsequence(a, b[1..])
    ensures IsSubsequence(a, b)
  {
  }

  /** With distinct ids and the id present, exactly one task goes: the one at its index. */
  lemma {:induction false} RemoveAt(ts: seq<Task>, id: int, k: nat)
    requires IdsDistinct(ts) && k < |ts| && ts[k].id == id
    ensures RemoveId(ts, id) == ts[..k] + ts[k + 1..]
    ensures |RemoveId(ts, id)| == |ts| - 1
  {
    assert ts == ts[..k] + ([ts[k]] + ts[k + 1..]);
    RemoveConcat(ts[..k], [ts[k]] + ts[k + 1..], id);
    RemoveConcat([ts[k]], ts[k + 1..], id);
    assert RemoveId([ts[k]], id) == [];
    assert !HasId(ts[..k], id);
    var tail := ts[k + 1..];
    assert !HasId(tail, id) by {
      forall j | 0 <= j < |tail| ensures tail[j].id != id {
        assert tail[j] == ts[k + 1 + j];
      }
    }
  }

  /** Removing twice is removing once. */
  lemma RemoveIdempotent(ts: seq<Task>, id: int)
    ensures RemoveId(RemoveId(ts, id), id) == RemoveId(ts, id)
  {
  }

  /** Removing keeps the ids of the rest and their order, so it keeps the id invariant. */
  lemma {:induction false} RemoveKeepsIds(ts: seq<Task>, next: int, id: int)
    requires IdsIncreasing(ts) && IdsBelow(ts, next)
    ensures IdsIncreasing(RemoveId(ts, id))
    ensures IdsBelow(RemoveId(ts, id), next)
  {
    if ts != [] {
      var tail := ts[1..];
      var rest := RemoveId(tail, id);
      RemoveKeepsIds(tail, next, id);
      if ts[0].id != id {
        RemoveKeepsLowerBound(tail, id, ts[0].id);
        assert RemoveId(ts, id) == [ts[0]] + rest;
      }
    }
  }

  /** Every id left after a remove was already in the list, so a lower bound on ids survives. */
  lemma RemoveKeepsLowerBound(ts: seq<Task>, id: int, lo: int)
    requires forall k :: 0 <= k < |ts| ==> lo < ts[k].id
    ensures forall k :: 0 <= k < |RemoveId(ts, id)| ==> lo < RemoveId(ts, id)[k].id
  {
    var r := RemoveId(ts, id);
    RemoveMembers(ts, id);
    forall k | 0 <= k < |r| ensures lo < r[k].id {
      assert r[k] in ts;
    }
  }

  /** Toggling and removing act on disjoint concerns and commute. */
  lemma {:induction false} RemoveSetCompletedCommute(ts: seq<Task>, a: int, checked: bool, b: int)
    ensures RemoveId(SetCompleted(ts, a, checked), b) == SetCompleted(RemoveId(ts, b), a, checked)
  {
    if ts != [] {
      RemoveSetCompletedCommute(ts[1..], a, checked, b);
      var s := SetCompleted(ts, a, checked);
      assert s[1..] == SetCompleted(ts[1..], a, checked);
    }
  }

  /**
   * A delete of an already issued id and an add under the counter give the
   * same list whichever commits first.
   */
  lemma AddRemoveCommute(ts: seq<Task>, next: int, title: string, description: string, id: int)
    requires id != next
    ensures RemoveId(AddTask(ts, next, title, description), id)
         == AddTask(RemoveId(ts, id), next, title, description)
  {
    RemoveConcat(ts, [NewTask(next, title, description)], id);
  }

  /**
   * A toggle of an already issued id and an add under the counter give the
   * same list whichever commits first.
   */
  lemma AddSetCompletedCommute(ts: seq<Task>, next: int, title: string, description: string, id: int, checked: bool)
    requires id != next
    ensures SetCompleted(AddTask(ts, next, title, description), id, checked)
         == AddTask(SetCompleted(ts, id, checked), next, title, description)
  {
    var lhs := SetCompleted(AddTask(ts, next, title, description), id, checked);
    var rhs := AddTask(SetCompleted(ts, id, checked), next, title, description);
    forall k | 0 <= k < |lhs| ensures lhs[k] == rhs[k] {
    }
  }

  // ---------------------------------------------------------------- stats

  /** `tasks.count { it.isCompleted }`. */
  function CompletedCount(ts: seq<Task>): (n: nat)
    ensures n <= |ts|
  {
    if ts == [] then 0 else (if ts[0].isCompleted then 1 else 0) + CompletedCount(ts[1..])
  }

  /** The completed figure is 0 exactly when nothing is done, and the total exactly when everything is. */
  lemma {:induction false} CompletedCountExtremes(ts: seq<Task>)
    ensures CompletedCount(ts) == 0 <==> forall k :: 0 <= k < |ts| ==> !ts[k].isCompleted
    ensures CompletedCount(ts) == |ts| <==> forall k :: 0 <= k < |ts| ==> ts[k].isCompleted
  {
    if ts != [] {
      CompletedCountExtremes(ts[1..]);
      assert forall k :: 1 <= k < |ts| ==> ts[k] == ts[1..][k - 1];
    }
  }

  /** The number of tasks still open, counted on its own. */
  function OpenCount(ts: seq<Task>): (n: nat)
    ensures n <= |ts|
  {
    if ts == [] then 0 else (if ts[0].isCompleted then 0 else 1) + OpenCount(ts[1..])
  }

  /** Every task is either completed or open. */
  lemma {:induction false} CountsPartition(ts: seq<Task>)
    ensures CompletedCount(ts) + OpenCount(ts) == |ts|
  {
    if ts != [] {
      CountsPartition(ts[1..]);
    }
  }

  lemma {:induction false} CompletedCountConcat(a: seq<Task>, b: seq<Task>)
    ensures CompletedCount(a + b) == CompletedCount(a) + CompletedCount(b)
  {
    if a == [] {
      assert a + b == b;
    } else {
      assert (a + b)[1..] == a[1..] + b;
      CompletedCountConcat(a[1..], b);
    }
  }

  /** The three figures of the statistics card. */
  datatype Stats = Stats(total: int, completed: int, pending: int)

  /** `total = tasks.size`, `completed = tasks.count { it.isCompleted }`, `pending = total - completed`. */
  function StatsOf(ts: seq<Task>): (s: Stats)
    ensures s.total == |ts| && s.completed == CompletedCount(ts)
    ensures 0 <= s.completed <= s.total
    ensures s.pending == OpenCount(ts) && s.pending >= 0
    ensures s.total == s.completed + s.pending
  {
    CountsPartition(ts);
    Stats(|ts|, CompletedCount(ts), |ts| - CompletedCount(ts))
  }

  /** An add counts one more task and one more pending task, and no more completed ones. */
  lemma StatsAfterAdd(ts: seq<Task>, id: int, title: string, description: string)
    ensures StatsOf(AddTask(ts, id, title, description)).total == StatsOf(ts).total + 1
    ensures StatsOf(AddTask(ts, id, title, description)).completed == StatsOf(ts).completed
    ensures StatsOf(AddTask(ts, id, title, description)).pending == StatsOf(ts).pending + 1
  {
    CompletedCountConcat(ts, [NewTask(id, title, description)]);
  }

  /** A toggle of a present id moves that task between completed and pending. */
  lemma StatsAfterToggle(ts: seq<Task>, id: int, checked: bool, k: nat)
    requires IdsDistinct(ts) && k < |ts| && ts[k].id == id
    ensures CompletedCount(SetCompleted(ts, id, checked))
         == CompletedCount(ts) - (if ts[k].isCompleted then 1 else 0) + (if checked then 1 else 0)
  {
    SetCompletedAt(ts, id, checked, k);
    CompletedCountReplace(ts, k, WithCompleted(ts[k], checked));
  }

  /** Replacing one task changes the completed figure by that task's contribution only. */
  lemma CompletedCountReplace(ts: seq<Task>, k: nat, t: Task)
    requires k < |ts|
    ensures CompletedCount(ts[k := t])
         == CompletedCount(ts) - (if ts[k].isCompleted then 1 else 0) + (if t.isCompleted then 1 else 0)
  {
    var pre, post := ts[..k], ts[k + 1..];
    assert ts == pre + [ts[k]] + post;
    assert ts[k := t] == pre + [t] + post;
    CompletedCountConcat(pre + [ts[k]], post);
    CompletedCountConcat(pre, [ts[k]]);
    CompletedCountConcat(pre + [t], post);
    CompletedCountConcat(pre, [t]);
  }

  /** A remove of a present id takes that task out of the total and out of its figure. */
  lemma StatsAfterRemove(ts: seq<Task>, id: int, k: nat)
    requires IdsDistinct(ts) && k < |ts| && ts[k].id == id
    ensures CompletedCount(RemoveId(ts, id)) == CompletedCount(ts) - (if ts[k].isCompleted then 1 else 0)
  {
    RemoveAt(ts, id, k);
    assert ts == ts[..k] + ([ts[k]] + ts[k + 1..]);
    CompletedCountConcat(ts[..k], [ts[k]] + ts[k + 1..]);
    CompletedCountConcat([ts[k]], ts[k + 1..]);
    CompletedCountConcat(ts[..k], ts[k + 1..]);
  }
}
