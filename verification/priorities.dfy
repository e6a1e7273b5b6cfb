/**
 * The status board's task list as a value: filtering a column, the stable
 * priority sort, and the renumbering of a column's priorities to 1..n in that
 * order. A sorted column is represented by the positions of its tasks in the
 * list, so that ties keep list order as the stable `Array.prototype.sort` does.
 */
module Priorities {

  datatype Task = Task(id: string, content: string, statusId: string, priority: int)

  // ---------------------------------------------------------------- columns

  /** `tasks.filter(task => task.statusId === s)`. */
  function Filter(ts: seq<Task>, s: string): (r: seq<Task>)
    ensures |r| <= |ts|
  {
    if ts == [] then []
    else Filter(ts[..|ts| - 1], s) + (if ts[|ts| - 1].statusId == s then [ts[|ts| - 1]] else [])
  }

  /** The filter keeps exactly the tasks of column `s`. */
  lemma {:induction false} FilterMembers(ts: seq<Task>, s: string)
    ensures forall t :: t in Filter(ts, s) ==> t in ts && t.statusId == s
    ensures forall k :: 0 <= k < |ts| && ts[k].statusId == s ==> ts[k] in Filter(ts, s)
    decreases |ts|
  {
    if ts != [] {
      var init := ts[..|ts| - 1];
      FilterMembers(init, s);
      assert forall k :: 0 <= k < |init| ==> init[k] == ts[k];
    }
  }

  /** Filtering a prefix one task longer adds at most that task. */
  lemma FilterPrefix(tasks: seq<Task>, n: nat, s: string)
    requires 0 < n <= |tasks|
    ensures Filter(tasks[..n], s) == Filter(tasks[..n - 1], s) + (if tasks[n - 1].statusId == s then [tasks[n - 1]] else [])
  {
    assert tasks[..n][..n - 1] == tasks[..n - 1];
  }

  /** The number of tasks in column `s`. */
  function Count(ts: seq<Task>, s: string): nat
  {
    |Filter(ts, s)|
  }

  /** Filtering distributes over concatenation. */
  lemma {:induction false} FilterAppend(a: seq<Task>, b: seq<Task>, s: string)
    ensures Filter(a + b, s) == Filter(a, s) + Filter(b, s)
    decreases |b|
  {
    if b == [] {
      assert a + b == a;
    } else {
      var c := b[..|b| - 1];
      assert (a + b)[..|a + b| - 1] == a + c;
      assert (a + b)[|a + b| - 1] == b[|b| - 1];
      FilterAppend(a, c, s);
    }
  }

  /** The count only looks at the status ids. */
  lemma {:induction false} CountFrame(a: seq<Task>, b: seq<Task>, s: string)
    requires |a| == |b|
    requires forall i :: 0 <= i < |a| ==> a[i].statusId == b[i].statusId
    ensures Count(a, s) == Count(b, s)
    decreases |a|
  {
    if a != [] {
      var a', b' := a[..|a| - 1], b[..|b| - 1];
      CountFrame(a', b', s);
      assert Count(a, s) == Count(a', s) + (if a[|a| - 1].statusId == s then 1 else 0);
      assert Count(b, s) == Count(b', s) + (if b[|b| - 1].statusId == s then 1 else 0);
    }
  }

  /** `splice(i, 1)` at a position of the list. */
  function RemoveAt(ts: seq<Task>, i: nat): (r: seq<Task>)
    requires i < |ts|
    ensures |r| == |ts| - 1
    ensures forall k :: 0 <= k < |r| ==> r[k] == if k < i then ts[k] else ts[k + 1]
  {
    ts[..i] + ts[i + 1..]
  }

  /** Removing one task of column `s` lowers its count by one. */
  lemma RemoveCount(ts: seq<Task>, i: nat, s: string)
    requires i < |ts|
    ensures Count(RemoveAt(ts, i), s) == Count(ts, s) - (if ts[i].statusId == s then 1 else 0)
  {
    assert ts == ts[..i] + [ts[i]] + ts[i + 1..];
    FilterAppend(ts[..i] + [ts[i]], ts[i + 1..], s);
    FilterAppend(ts[..i], [ts[i]], s);
    FilterAppend(ts[..i], ts[i + 1..], s);
    assert [ts[i]][..0] == [];
  }

  // ----------------------------------------------------------- stable order

  /** Task `i` comes before task `j` in the stable sort by priority. */
  predicate Before(tasks: seq<Task>, i: nat, j: nat)
    requires i < |tasks| && j < |tasks|
  {
    tasks[i].priority < tasks[j].priority || (tasks[i].priority == tasks[j].priority && i < j)
  }

  predicate IndicesIn(tasks: seq<Task>, L: seq<nat>)
  {
    forall k :: 0 <= k < |L| ==> L[k] < |tasks|
  }

  predicate StrictlySorted(tasks: seq<Task>, L: seq<nat>)
    requires IndicesIn(tasks, L)
  {
    forall a, b :: 0 <= a < b < |L| ==> Before(tasks, L[a], L[b])
  }

  /** A position below every entry of a sorted list can go in front of it. */
  lemma ConsSorted(tasks: seq<Task>, h: nat, R: seq<nat>)
    requires h < |tasks| && IndicesIn(tasks, R) && StrictlySorted(tasks, R)
    requires forall k :: 0 <= k < |R| ==> Before(tasks, h, R[k])
    ensures IndicesIn(tasks, [h] + R) && StrictlySorted(tasks, [h] + R)
  {
    var C := [h] + R;
    assert forall k :: 1 <= k < |C| ==> C[k] == R[k - 1];
  }

  /** The head of a sorted list precedes the rest; the rest is sorted. */
  lemma TailSorted(tasks: seq<Task>, L: seq<nat>)
    requires |L| > 0 && IndicesIn(tasks, L) && StrictlySorted(tasks, L)
    ensures IndicesIn(tasks, L[1..]) && StrictlySorted(tasks, L[1..])
    ensures forall k :: 0 <= k < |L[1..]| ==> Before(tasks, L[0], L[1..][k])
  {
    assert forall k :: 0 <= k < |L[1..]| ==> L[1..][k] == L[k + 1];
  }

  /** Every entry of a list with the multiset of `tail` plus `x` is `x` or an entry of `tail`. */
  lemma MembersFromMultiset(r: seq<nat>, tail: seq<nat>, x: nat)
    requires multiset(r) == multiset(tail) + multiset{x}
    ensures forall k :: 0 <= k < |r| ==> r[k] == x || r[k] in tail
  {
    forall k | 0 <= k < |r|
      ensures r[k] == x || r[k] in tail
    {
      assert r[k] in multiset(r);
    }
  }

  /** One step of insertion sort: `x` goes in front of the first position it precedes. */
  function Insert(tasks: seq<Task>, L: seq<nat>, x: nat): (r: seq<nat>)
    requires IndicesIn(tasks, L) && x < |tasks|
    requires StrictlySorted(tasks, L) && x !in L
    ensures |r| == |L| + 1 && IndicesIn(tasks, r)
    ensures multiset(r) == multiset(L) + multiset{x}
    ensures StrictlySorted(tasks, r)
  {
    assert L == [] || L == [L[0]] + L[1..];
    if L == [] then [x]
    else
      TailSorted(tasks, L);
      if Before(tasks, x, L[0]) then
        ConsSorted(tasks, x, L);
        [x] + L
      else
        var tail := L[1..];
        var rest := Insert(tasks, tail, x);
        MembersFromMultiset(rest, tail, x);
        assert forall k :: 0 <= k < |rest| ==> Before(tasks, L[0], rest[k]);
        ConsSorted(tasks, L[0], rest);
        [L[0]] + rest
  }

  lemma InsertMembers(tasks: seq<Task>, L: seq<nat>, x: nat)
    requires IndicesIn(tasks, L) && x < |tasks|
    requires StrictlySorted(tasks, L) && x !in L
    ensures forall y :: y in Insert(tasks, L, x) <==> y in L || y == x
  {
    var r := Insert(tasks, L, x);
    forall y
      ensures y in r <==> y in L || y == x
    {
      assert y in r <==> y in multiset(r);
      assert y in L <==> y in multiset(L);
    }
  }

  /** Inserting the next task of column `s` into the sorted positions of the
      shorter prefix gives the sorted positions of the longer one. */
  lemma InsertStep(tasks: seq<Task>, s: string, n: nat, L: seq<nat>)
    requires 0 < n <= |tasks| && tasks[n - 1].statusId == s
    requires IndicesIn(tasks, L) && StrictlySorted(tasks, L)
    requires forall y :: y in L ==> y < n - 1 && tasks[y].statusId == s
    requires forall i :: 0 <= i < n - 1 && tasks[i].statusId == s ==> i in L
    requires |L| == Count(tasks[..n - 1], s)
    ensures n - 1 !in L
    ensures var r := Insert(tasks, L, n - 1);
            && (forall y :: y in r ==> y < n && tasks[y].statusId == s)
            && (forall i :: 0 <= i < n && tasks[i].statusId == s ==> i in r)
            && |r| == Count(tasks[..n], s)
  {
    InsertMembers(tasks, L, n - 1);
    FilterPrefix(tasks, n, s);
  }

  /** The positions of column `s` among the first `n` tasks, in stable priority order. */
  function SortedUpTo(tasks: seq<Task>, s: string, n: nat): (L: seq<nat>)
    requires n <= |tasks|
    ensures IndicesIn(tasks, L) && StrictlySorted(tasks, L)
    ensures forall y :: y in L ==> y < n && tasks[y].statusId == s
    ensures forall i :: 0 <= i < n && tasks[i].statusId == s ==> i in L
    ensures |L| == Count(tasks[..n], s)
  {
    if n == 0 then []
    else
      var L := SortedUpTo(tasks, s, n - 1);
      FilterPrefix(tasks, n, s);
      if tasks[n - 1].statusId == s then
        InsertStep(tasks, s, n, L);
        Insert(tasks, L, n - 1)
      else L
  }

  /** The positions of column `s`, in stable priority order. */
  function SortedIndices(tasks: seq<Task>, s: string): (L: seq<nat>)
    ensures IndicesIn(tasks, L) && StrictlySorted(tasks, L)
    ensures forall k :: 0 <= k < |L| ==> tasks[L[k]].statusId == s
    ensures forall i :: 0 <= i < |tasks| && tasks[i].statusId == s ==> i in L
    ensures |L| == Count(tasks, s)
  {
    assert tasks[..|tasks|] == tasks;
    var L := SortedUpTo(tasks, s, |tasks|);
    assert forall k :: 0 <= k < |L| ==> L[k] in L;
    L
  }

  /** The tasks at the given positions. */
  function Pick(tasks: seq<Task>, L: seq<nat>): (r: seq<Task>)
    requires IndicesIn(tasks, L)
    ensures |r| == |L|
  {
    seq(|L|, k requires 0 <= k < |L| => tasks[L[k]])
  }

  lemma PickCons(tasks: seq<Task>, x: nat, L: seq<nat>)
    requires IndicesIn(tasks, L) && x < |tasks|
    ensures IndicesIn(tasks, [x] + L)
    ensures Pick(tasks, [x] + L) == [tasks[x]] + Pick(tasks, L)
  {
  }

  /** Inserting a position adds exactly its task to the picked tasks. */
  lemma {:induction false} PickInsert(tasks: seq<Task>, L: seq<nat>, x: nat)
    requires IndicesIn(tasks, L) && x < |tasks|
    requires StrictlySorted(tasks, L) && x !in L
    ensures multiset(Pick(tasks, Insert(tasks, L, x))) == multiset(Pick(tasks, L)) + multiset{tasks[x]}
  {
    if L == [] {
      assert Pick(tasks, [x]) == [tasks[x]];
    } else if Before(tasks, x, L[0]) {
      PickCons(tasks, x, L);
    } else {
      var tail := L[1..];
      TailSorted(tasks, L);
      assert L == [L[0]] + tail;
      PickInsert(tasks, tail, x);
      PickConsMultiset(tasks, L[0], Insert(tasks, tail, x), tail, tasks[x]);
    }
  }

  /** Putting the same position in front of two lists keeps a multiset difference of one task. */
  lemma PickConsMultiset(tasks: seq<Task>, h: nat, A: seq<nat>, B: seq<nat>, t: Task)
    requires h < |tasks| && IndicesIn(tasks, A) && IndicesIn(tasks, B)
    requires multiset(Pick(tasks, A)) == multiset(Pick(tasks, B)) + multiset{t}
    ensures IndicesIn(tasks, [h] + A) && IndicesIn(tasks, [h] + B)
    ensures multiset(Pick(tasks, [h] + A)) == multiset(Pick(tasks, [h] + B)) + multiset{t}
  {
    PickCons(tasks, h, A);
    PickCons(tasks, h, B);
  }

  /** The sorted positions pick exactly the filtered tasks. */
  lemma {:induction false} PickSortedUpTo(tasks: seq<Task>, s: string, n: nat)
    requires n <= |tasks|
    ensures multiset(Pick(tasks, SortedUpTo(tasks, s, n))) == multiset(Filter(tasks[..n], s))
  {
    if n > 0 {
      PickSortedUpTo(tasks, s, n - 1);
      var prefix, t := tasks[..n], tasks[n - 1];
      FilterPrefix(tasks, n, s);
      var L := SortedUpTo(tasks, s, n - 1);
      if t.statusId == s {
        assert SortedUpTo(tasks, s, n) == Insert(tasks, L, n - 1);
        PickInsert(tasks, L, n - 1);
        assert multiset(Filter(prefix, s)) == multiset(Filter(tasks[..n - 1], s)) + multiset{t};
      } else {
        assert Filter(prefix, s) == Filter(tasks[..n - 1], s) + [];
        assert SortedUpTo(tasks, s, n) == L;
      }
    }
  }

  /** `getTasksByStatus(s)`: the tasks of column `s`, each exactly once, in
      nondecreasing priority order. Ties are broken by list order in
      `SortedIndices`; `RenumberOrder` states that order for the renumbering. */
  function TasksByStatus(tasks: seq<Task>, s: string): (r: seq<Task>)
    ensures multiset(r) == multiset(Filter(tasks, s))
    ensures |r| == Count(tasks, s)
    ensures forall a, b :: 0 <= a < b < |r| ==> r[a].priority <= r[b].priority
  {
    PickSortedUpTo(tasks, s, |tasks|);
    assert tasks[..|tasks|] == tasks;
    Pick(tasks, SortedIndices(tasks, s))
  }

  // ------------------------------------------------------------- renumbering

  /** The position of `x` in `L`. */
  function Find(L: seq<nat>, x: nat): (k: nat)
    requires x in L
    ensures k < |L| && L[k] == x
  {
    if L[0] == x then 0 else 1 + Find(L[1..], x)
  }

  /** In a strictly sorted list every position holds a different task. */
  lemma FindUnique(tasks: seq<Task>, L: seq<nat>, k: nat)
    requires IndicesIn(tasks, L) && StrictlySorted(tasks, L) && k < |L|
    ensures Find(L, L[k]) == k
  {
  }

  /** What `sortTasksInColumn(s)` leaves: the task in place `k` of the stable
      priority order of column `s` gets priority `k + 1`; nothing else changes. */
  function Renumber(tasks: seq<Task>, s: string): (r: seq<Task>)
    ensures |r| == |tasks|
    ensures forall i :: 0 <= i < |tasks| ==>
              r[i].id == tasks[i].id && r[i].content == tasks[i].content && r[i].statusId == tasks[i].statusId
    ensures forall i :: 0 <= i < |tasks| && tasks[i].statusId != s ==> r[i] == tasks[i]
  {
    var L := SortedIndices(tasks, s);
    seq(|tasks|, i requires 0 <= i < |tasks| =>
      if tasks[i].statusId == s then tasks[i].(priority := 1 + Find(L, i)) else tasks[i])
  }

  /** The new priority of a task of column `s` is one more than its place in the stable order. */
  lemma RenumberAt(tasks: seq<Task>, s: string, i: nat)
    requires i < |tasks| && tasks[i].statusId == s
    ensures i in SortedIndices(tasks, s)
    ensures Renumber(tasks, s)[i].priority == 1 + Find(SortedIndices(tasks, s), i)
  {
  }

  /** Renumbering part-way: the first `n` tasks of the stable order of column `s`
      have their new priority, all other tasks are as they were. */
  function RenumberedUpTo(tasks: seq<Task>, s: string, n: nat): (r: seq<Task>)
    ensures |r| == |tasks|
    ensures forall i :: 0 <= i < |tasks| ==>
              r[i].id == tasks[i].id && r[i].content == tasks[i].content && r[i].statusId == tasks[i].statusId
  {
    var L := SortedIndices(tasks, s);
    seq(|tasks|, i requires 0 <= i < |tasks| =>
      if tasks[i].statusId == s && Find(L, i) < n then tasks[i].(priority := 1 + Find(L, i)) else tasks[i])
  }

  lemma RenumberedUpToZero(tasks: seq<Task>, s: string)
    ensures RenumberedUpTo(tasks, s, 0) == tasks
  {
  }

  /** One more step renumbers exactly the next task of the stable order. */
  lemma RenumberedUpToStep(tasks: seq<Task>, s: string, n: nat)
    requires n < |SortedIndices(tasks, s)|
    ensures var L := SortedIndices(tasks, s);
            var p := RenumberedUpTo(tasks, s, n);
            RenumberedUpTo(tasks, s, n + 1) == p[L[n] := p[L[n]].(priority := n + 1)]
  {
    var L := SortedIndices(tasks, s);
    FindUnique(tasks, L, n);
  }

  /** Once the whole column is walked, the result is the renumbering. */
  lemma RenumberedUpToAll(tasks: seq<Task>, s: string)
    ensures RenumberedUpTo(tasks, s, |SortedIndices(tasks, s)|) == Renumber(tasks, s)
  {
  }

  /** The `k`-th task of the stable order gets priority `k + 1`. */
  lemma RenumberRanks(tasks: seq<Task>, s: string, k: nat)
    requires k < |SortedIndices(tasks, s)|
    ensures Renumber(tasks, s)[SortedIndices(tasks, s)[k]].priority == k + 1
  {
    var L := SortedIndices(tasks, s);
    FindUnique(tasks, L, k);
    RenumberAt(tasks, s, L[k]);
  }

  /** The priorities of column `s` are 1..n, one each, n the column's size. */
  predicate Dense(tasks: seq<Task>, s: string)
  {
    && (forall i :: 0 <= i < |tasks| && tasks[i].statusId == s ==> 1 <= tasks[i].priority <= Count(tasks, s))
    && (forall i, j ::
          0 <= i < |tasks| && 0 <= j < |tasks| && i != j && tasks[i].statusId == s && tasks[j].statusId == s
          ==> tasks[i].priority != tasks[j].priority)
  }

  /** After renumbering, column `s` holds the priorities 1..n, each once. */
  lemma RenumberDense(tasks: seq<Task>, s: string)
    ensures Dense(Renumber(tasks, s), s)
  {
    var r := Renumber(tasks, s);
    var L := SortedIndices(tasks, s);
    CountFrame(tasks, r, s);
    forall i | 0 <= i < |r| && r[i].statusId == s
      ensures 1 <= r[i].priority <= Count(r, s)
    {
      RenumberAt(tasks, s, i);
    }
    forall i, j | 0 <= i < |r| && 0 <= j < |r| && i != j && r[i].statusId == s && r[j].statusId == s
      ensures r[i].priority != r[j].priority
    {
      RenumberAt(tasks, s, i);
      RenumberAt(tasks, s, j);
    }
  }

  /** Renumbering keeps the stable order: a task that came first gets the smaller priority. */
  lemma RenumberOrder(tasks: seq<Task>, s: string, i: nat, j: nat)
    requires i < |tasks| && j < |tasks|
    requires tasks[i].statusId == s && tasks[j].statusId == s
    requires Before(tasks, i, j)
    ensures Renumber(tasks, s)[i].priority < Renumber(tasks, s)[j].priority
  {
    var L := SortedIndices(tasks, s);
    RenumberAt(tasks, s, i);
    RenumberAt(tasks, s, j);
  }

  /** Renumbering looks only at the tasks of its own column: two lists that agree on
      the status ids and on the tasks of column `s` are both dense in `s` or neither. */
  lemma DenseFrame(a: seq<Task>, b: seq<Task>, s: string)
    requires |a| == |b|
    requires forall i :: 0 <= i < |a| ==> a[i].statusId == b[i].statusId
    requires forall i :: 0 <= i < |a| && a[i].statusId == s ==> a[i] == b[i]
    requires Dense(a, s)
    ensures Dense(b, s)
  {
    CountFrame(a, b, s);
  }

  /** Appending a task of another column leaves column `s` dense. */
  lemma AppendKeepsDense(tasks: seq<Task>, t: Task, s: string)
    requires t.statusId != s
    requires Dense(tasks, s)
    ensures Dense(tasks + [t], s)
  {
    FilterAppend(tasks, [t], s);
    assert Filter([t], s) == [];
  }

  /** Removing a task of another column leaves column `s` dense. */
  lemma RemoveKeepsDense(tasks: seq<Task>, i: nat, s: string)
    requires i < |tasks| && tasks[i].statusId != s
    requires Dense(tasks, s)
    ensures Dense(RemoveAt(tasks, i), s)
  {
    var r := RemoveAt(tasks, i);
    RemoveCount(tasks, i, s);
    forall a, b | 0 <= a < |r| && 0 <= b < |r| && a != b && r[a].statusId == s && r[b].statusId == s
      ensures r[a].priority != r[b].priority
    {
      var a' := if a < i then a else a + 1;
      var b' := if b < i then b else b + 1;
      assert r[a] == tasks[a'] && r[b] == tasks[b'];
    }
  }

  /** `sortTasksInAllColumns`: every listed column renumbered, in list order. */
  function RenumberAll(tasks: seq<Task>, ids: seq<string>): (r: seq<Task>)
    ensures |r| == |tasks|
    ensures forall i :: 0 <= i < |tasks| ==>
              r[i].id == tasks[i].id && r[i].content == tasks[i].content && r[i].statusId == tasks[i].statusId
    ensures forall i :: 0 <= i < |tasks| && tasks[i].statusId !in ids ==> r[i] == tasks[i]
    decreases |ids|
  {
    if ids == [] then tasks else RenumberAll(Renumber(tasks, ids[0]), ids[1..])
  }

  /** After renumbering all columns, each listed column holds the priorities 1..n,
      even when a column id is listed twice. */
  lemma {:induction false} RenumberAllDense(tasks: seq<Task>, ids: seq<string>, s: string)
    requires s in ids
    ensures Dense(RenumberAll(tasks, ids), s)
    decreases |ids|
  {
    var first := Renumber(tasks, ids[0]);
    if s in ids[1..] {
      RenumberAllDense(first, ids[1..], s);
    } else {
      RenumberDense(tasks, s);
      DenseFrame(first, RenumberAll(first, ids[1..]), s);
    }
  }

  // ------------------------------------------------------------ adding tasks

  /** `Math.max` over the priorities of a non-empty list. */
  function MaxPriority(ts: seq<Task>): (m: int)
    requires |ts| > 0
    ensures forall k :: 0 <= k < |ts| ==> ts[k].priority <= m
    ensures exists k :: 0 <= k < |ts| && ts[k].priority == m
  {
    if |ts| == 1 then ts[0].priority
    else
      var m := MaxPriority(ts[1..]);
      assert forall k :: 1 <= k < |ts| ==> ts[k] == ts[1..][k - 1];
      if ts[0].priority >= m then ts[0].priority else m
  }

  /** The priority `addTask` gives a new task of column `s`: one more than the
      column's largest, or 1 for an empty column. */
  function NextPriority(tasks: seq<Task>, s: string): (p: int)
    ensures forall i :: 0 <= i < |tasks| && tasks[i].statusId == s ==> tasks[i].priority < p
    ensures Count(tasks, s) == 0 ==> p == 1
  {
    var inColumn := TasksByStatus(tasks, s);
    FilterMembers(tasks, s);
    assert forall i :: 0 <= i < |tasks| && tasks[i].statusId == s ==> tasks[i] in multiset(inColumn);
    if |inColumn| > 0 then MaxPriority(inColumn) + 1 else 1
  }

  /** Appending a task of column `s` grows the column by one. */
  lemma CountSnoc(tasks: seq<Task>, t: Task)
    ensures Count(tasks + [t], t.statusId) == Count(tasks, t.statusId) + 1
  {
    FilterAppend(tasks, [t], t.statusId);
    assert [t][..0] == [];
  }

  /** A task whose priority exceeds every other task of its column is last in the stable order. */
  lemma LastInOrder(tasks: seq<Task>, n: nat)
    requires n < |tasks|
    requires forall i :: 0 <= i < |tasks| && i != n && tasks[i].statusId == tasks[n].statusId ==>
               tasks[i].priority < tasks[n].priority
    ensures var L := SortedIndices(tasks, tasks[n].statusId);
            n in L && Find(L, n) == |L| - 1
  {
    var L := SortedIndices(tasks, tasks[n].statusId);
    var last := |L| - 1;
    assert L[last] in L;
    assert L[last] == n;
    FindUnique(tasks, L, last);
  }

  /** A task appended with a priority above its whole column is last after renumbering. */
  lemma AppendLandsLast(tasks: seq<Task>, t: Task)
    requires forall i :: 0 <= i < |tasks| && tasks[i].statusId == t.statusId ==> tasks[i].priority < t.priority
    ensures Count(tasks + [t], t.statusId) == Count(tasks, t.statusId) + 1
    ensures Count(Renumber(tasks + [t], t.statusId), t.statusId) == Count(tasks, t.statusId) + 1
    ensures Renumber(tasks + [t], t.statusId)[|tasks|].priority == Count(tasks, t.statusId) + 1
  {
    var all := tasks + [t];
    CountSnoc(tasks, t);
    LastInOrder(all, |tasks|);
    RenumberAt(all, t.statusId, |tasks|);
    CountFrame(all, Renumber(all, t.statusId), t.statusId);
  }

  // ------------------------------------------------------------- task ids

  predicate UniqueIds(ts: seq<Task>)
  {
    forall i, j :: 0 <= i < j < |ts| ==> ts[i].id != ts[j].id
  }

  /** `findIndex(t => t.id === id)`: the first position holding `id`, or -1. */
  function IndexOfId(ts: seq<Task>, id: string): (r: int)
    ensures -1 <= r < |ts|
    ensures r == -1 <==> forall k :: 0 <= k < |ts| ==> ts[k].id != id
    ensures r >= 0 ==> ts[r].id == id && forall k :: 0 <= k < r ==> ts[k].id != id
  {
    if ts == [] then -1
    else if ts[0].id == id then 0
    else
      var r := IndexOfId(ts[1..], id);
      assert forall k :: 1 <= k < |ts| ==> ts[k] == ts[1..][k - 1];
      if r == -1 then -1 else r + 1
  }

  /** Two lists with the same ids at every position agree on distinctness and on `findIndex`. */
  lemma IdsFrame(a: seq<Task>, b: seq<Task>)
    requires |a| == |b| && forall i :: 0 <= i < |a| ==> a[i].id == b[i].id
    ensures UniqueIds(a) ==> UniqueIds(b)
    ensures forall id :: IndexOfId(b, id) == IndexOfId(a, id)
  {
    forall id ensures IndexOfId(b, id) == IndexOfId(a, id) {
      var ra, rb := IndexOfId(a, id), IndexOfId(b, id);
      if ra != -1 && rb != -1 {
        assert !(ra < rb) && !(rb < ra);
      }
    }
  }

  /** With distinct ids, `findIndex` by a task's id finds that task. */
  lemma IndexOfIdUnique(ts: seq<Task>, i: nat)
    requires UniqueIds(ts) && i < |ts|
    ensures IndexOfId(ts, ts[i].id) == i
  {
  }

  /** One pass of the `forEach` loop of `sortTasksInColumn`: the `n`-th task of
      the sorted column is found by its id at its own position in the partly
      renumbered list, and setting its priority to `n + 1` renumbers one more task. */
  lemma RenumberStep(before: seq<Task>, s: string, n: nat)
    requires UniqueIds(before) && n < Count(before, s)
    ensures var L := SortedIndices(before, s);
            var p := RenumberedUpTo(before, s, n);
            && |TasksByStatus(before, s)| == |L|
            && IndexOfId(p, TasksByStatus(before, s)[n].id) == L[n]
            && RenumberedUpTo(before, s, n + 1) == p[L[n] := p[L[n]].(priority := n + 1)]
  {
    var L := SortedIndices(before, s);
    var p := RenumberedUpTo(before, s, n);
    assert TasksByStatus(before, s)[n] == before[L[n]];
    IdsFrame(before, p);
    IndexOfIdUnique(before, L[n]);
    RenumberedUpToStep(before, s, n);
  }

  /** Once every task of the column has had its turn, the column is renumbered,
      dense, and the ids are still distinct. */
  lemma RenumberFinish(before: seq<Task>, s: string)
    requires UniqueIds(before)
    ensures RenumberedUpTo(before, s, |TasksByStatus(before, s)|) == Renumber(before, s)
    ensures Dense(Renumber(before, s), s) && UniqueIds(Renumber(before, s))
  {
    RenumberedUpToAll(before, s);
    RenumberDense(before, s);
    IdsFrame(before, Renumber(before, s));
  }

  /** Removing a task from a list with distinct ids keeps them distinct and drops its id. */
  lemma RemoveUnique(ts: seq<Task>, i: nat)
    requires i < |ts| && UniqueIds(ts)
    ensures UniqueIds(RemoveAt(ts, i))
    ensures forall k :: 0 <= k < |RemoveAt(ts, i)| ==> RemoveAt(ts, i)[k].id != ts[i].id
  {
  }

  /** Appending a task whose id is new keeps the ids distinct. */
  lemma AppendUnique(ts: seq<Task>, t: Task)
    requires UniqueIds(ts)
    requires forall k :: 0 <= k < |ts| ==> ts[k].id != t.id
    ensures UniqueIds(ts + [t])
  {
  }
}
