/** The per-column display filter: a column shows, in `taskIds` order, the
    tasks whose lower-cased content contains the lower-cased search query. */
module Search {
  import opened JsArray
  import opened KanbanInterfaces

  /** `toLowerCase` on one character, restricted to ASCII letters. */
  function ToLowerChar(c: char): (r: char)
    ensures 'A' <= c <= 'Z' ==> 'a' <= r <= 'z' && r as int - c as int == 32
    ensures !('A' <= c <= 'Z') ==> r == c
  {
    if 'A' <= c <= 'Z' then (c as int + 32) as char else c
  }

  /** `s.toLowerCase()`, character by character. */
  function ToLower(s: string): (r: string)
    ensures |r| == |s|
    ensures forall i :: 0 <= i < |s| ==> r[i] == ToLowerChar(s[i])
    ensures forall i :: 0 <= i < |r| ==> !('A' <= r[i] <= 'Z')
  {
    seq(|s|, i requires 0 <= i < |s| => ToLowerChar(s[i]))
  }

  /** `q` occurs in `s` starting at position `i`. */
  ghost predicate OccursAt(s: string, q: string, i: int) {
    0 <= i && i + |q| <= |s| && s[i..i + |q|] == q
  }

  /** `s.includes(q)`, searching from the front (the empty query occurs
      everywhere). */
  function Includes(s: string, q: string): (r: bool)
    ensures q == [] ==> r
    ensures r ==> |q| <= |s|
    decreases |s|
  {
    if |q| <= |s| && s[..|q|] == q then true
    else if s == [] then false
    else Includes(s[1..], q)
  }

  /** `Includes` holds exactly when `q` occurs somewhere in `s`. */
  lemma {:induction false} IncludesIffOccurs(s: string, q: string)
    ensures Includes(s, q) <==> exists i :: OccursAt(s, q, i)
    decreases |s|
  {
    if |q| <= |s| && s[..|q|] == q {
      assert OccursAt(s, q, 0);
    } else if s != [] {
      IncludesIffOccurs(s[1..], q);
      if Includes(s[1..], q) {
        var i :| OccursAt(s[1..], q, i);
        assert s[1..][i..i + |q|] == s[i + 1..i + 1 + |q|];
        assert OccursAt(s, q, i + 1);
      }
      if exists i :: OccursAt(s, q, i) {
        var i :| OccursAt(s, q, i);
        assert i != 0;
        assert s[1..][i - 1..i - 1 + |q|] == s[i..i + |q|];
        assert OccursAt(s[1..], q, i - 1);
      }
    }
  }

  /** The filter of the render map: lower-cased content contains the
      lower-cased query. The empty query matches every task, and a query
      longer than the content matches none. */
  function Matches(task: Task, query: string): (r: bool)
    ensures query == "" ==> r
    ensures r ==> |query| <= |task.content|
  {
    Includes(ToLower(task.content), ToLower(query))
  }

  /** The task stored under `id` exists and passes the filter. */
  predicate Shown(tasks: map<string, Task>, id: string, query: string) {
    id in tasks && Matches(tasks[id], query)
  }

  /** `taskIds.map(id => tasks[id]).filter(t => matches(t, query))`. The map
      step needs every id to name a task; the filter keeps the order. */
  function VisibleTasks(tasks: map<string, Task>, taskIds: seq<string>, query: string): (r: seq<Task>)
    requires forall id :: id in taskIds ==> id in tasks
    ensures |r| <= |taskIds|
    ensures forall k :: 0 <= k < |r| ==> Matches(r[k], query)
    decreases |taskIds|
  {
    if taskIds == [] then []
    else
      var init, last := taskIds[..|taskIds| - 1], taskIds[|taskIds| - 1];
      SnocMembers(taskIds);
      var t := tasks[last];
      VisibleTasks(tasks, init, query) + (if Matches(t, query) then [t] else [])
  }

  /** The positions in `taskIds` of the tasks a column shows, in increasing
      order (see `VisiblePositionsSound` and `VisiblePositionsComplete`). */
  function VisiblePositions(tasks: map<string, Task>, taskIds: seq<string>, query: string): (p: seq<nat>)
    ensures |p| <= |taskIds|
    ensures forall k :: 0 <= k < |p| ==> p[k] < |taskIds|
    decreases |taskIds|
  {
    if taskIds == [] then []
    else
      var n := |taskIds| - 1;
      VisiblePositions(tasks, taskIds[..n], query) + (if Shown(tasks, taskIds[n], query) then [n] else [])
  }

  /** Every visible position holds a task that exists and passes the filter. */
  lemma {:induction false} VisiblePositionsSound(tasks: map<string, Task>, taskIds: seq<string>, query: string)
    ensures forall k :: 0 <= k < |VisiblePositions(tasks, taskIds, query)| ==>
      Shown(tasks, taskIds[VisiblePositions(tasks, taskIds, query)[k]], query)
    decreases |taskIds|
  {
    if taskIds != [] {
      var n := |taskIds| - 1;
      var init := taskIds[..n];
      VisiblePositionsSound(tasks, init, query);
      var p := VisiblePositions(tasks, init, query);
      var tail: seq<nat> := if Shown(tasks, taskIds[n], query) then [n] else [];
      var shown := (j: nat) => j < |taskIds| && Shown(tasks, taskIds[j], query);
      forall k | 0 <= k < |p| ensures shown(p[k]) {
        assert p[k] < |init| && taskIds[p[k]] == init[p[k]];
      }
      SnocAll(p, tail, n, shown);
    }
  }

  /** The visible positions are listed in increasing order, so the displayed
      tasks keep the column's order. */
  lemma {:induction false} VisiblePositionsIncreasing(tasks: map<string, Task>, taskIds: seq<string>, query: string)
    ensures Increasing(VisiblePositions(tasks, taskIds, query))
    decreases |taskIds|
  {
    if taskIds != [] {
      var n := |taskIds| - 1;
      VisiblePositionsIncreasing(tasks, taskIds[..n], query);
      var p := VisiblePositions(tasks, taskIds[..n], query);
      var tail: seq<nat> := if Shown(tasks, taskIds[n], query) then [n] else [];
      SnocIncreasing(p, tail, n);
    }
  }

  /** Strictly increasing positions. */
  ghost predicate Increasing(p: seq<nat>) {
    forall k, l :: 0 <= k < l < |p| ==> p[k] < p[l]
  }

  /** Appending a position above all others keeps a list increasing. */
  lemma SnocIncreasing(p: seq<nat>, tail: seq<nat>, n: nat)
    requires Increasing(p)
    requires forall k :: 0 <= k < |p| ==> p[k] < n
    requires tail == [] || tail == [n]
    ensures Increasing(p + tail)
  {
  }

  /** Appending a position with property `P` keeps "every position has `P`". */
  lemma SnocAll(p: seq<nat>, tail: seq<nat>, n: nat, P: nat -> bool)
    requires forall k :: 0 <= k < |p| ==> P(p[k])
    requires tail == [] || (tail == [n] && P(n))
    ensures forall k :: 0 <= k < |p + tail| ==> P((p + tail)[k])
  {
  }

  /** Every position whose task exists and passes the filter is visible. */
  lemma {:induction false} VisiblePositionsComplete(tasks: map<string, Task>, taskIds: seq<string>, query: string)
    ensures var p := VisiblePositions(tasks, taskIds, query);
      forall j :: 0 <= j < |taskIds| && Shown(tasks, taskIds[j], query) ==> j in p
    decreases |taskIds|
  {
    if taskIds != [] {
      var n := |taskIds| - 1;
      var init := taskIds[..n];
      VisiblePositionsComplete(tasks, init, query);
      assert forall j :: 0 <= j < n ==> taskIds[j] == init[j];
    }
  }

  /** The displayed list is `taskIds` read at the visible positions: it is a
      subsequence of the column, in the column's order, holding exactly the
      matching tasks. */
  lemma {:induction false} VisibleTasksAtPositions(tasks: map<string, Task>, taskIds: seq<string>, query: string)
    requires forall id :: id in taskIds ==> id in tasks
    ensures |VisibleTasks(tasks, taskIds, query)| == |VisiblePositions(tasks, taskIds, query)|
    ensures forall k :: 0 <= k < |VisiblePositions(tasks, taskIds, query)| ==>
      VisibleTasks(tasks, taskIds, query)[k] == tasks[taskIds[VisiblePositions(tasks, taskIds, query)[k]]]
    decreases |taskIds|
  {
    if taskIds != [] {
      var n := |taskIds| - 1;
      var init := taskIds[..n];
      SnocMembers(taskIds);
      VisibleTasksAtPositions(tasks, init, query);
      var p := VisiblePositions(tasks, init, query);
      assert forall k :: 0 <= k < |p| ==> taskIds[p[k]] == init[p[k]];
    }
  }

  /** When every task of the column exists and the query is empty, the column
      shows everything: the visible positions are `0, 1, ..., |taskIds| - 1`. */
  lemma {:induction false} EmptyQueryShowsAll(tasks: map<string, Task>, taskIds: seq<string>)
    requires forall id :: id in taskIds ==> id in tasks
    ensures var p := VisiblePositions(tasks, taskIds, "");
      |p| == |taskIds| && forall k :: 0 <= k < |p| ==> p[k] == k
    decreases |taskIds|
  {
    if taskIds != [] {
      var n := |taskIds| - 1;
      var init := taskIds[..n];
      assert taskIds == init + [taskIds[n]];
      SnocMembers(taskIds);
      EmptyQueryShowsAll(tasks, init);
      assert ToLower("") == "";
      assert Shown(tasks, taskIds[n], "") by {
        assert OccursAt(ToLower(tasks[taskIds[n]].content), "", 0);
      }
    }
  }

  /** A card whose content has, at position `i`, the query up to letter case
      is shown. */
  lemma OccurrenceShows(content: string, query: string, i: nat)
    requires i + |query| <= |content|
    requires forall j :: 0 <= j < |query| ==> ToLowerChar(content[i + j]) == ToLowerChar(query[j])
    ensures forall id :: Matches(Task(id, content), query)
  {
    var s, q := ToLower(content), ToLower(query);
    assert s[i..i + |q|] == q;
    assert OccursAt(s, q, i);
    IncludesIffOccurs(s, q);
  }

  /** A card whose content lacks, in both cases, a letter of the query is
      hidden. */
  lemma MissingLetterHides(content: string, query: string, c: char)
    requires 'a' <= c <= 'z' && c in query
    requires c !in content && (c as int - 32) as char !in content
    ensures forall id :: !Matches(Task(id, content), query)
  {
    var s, q := ToLower(content), ToLower(query);
    IncludesIffOccurs(s, q);
    var k :| 0 <= k < |query| && query[k] == c;
    assert q[k] == c;
    forall i | 0 <= i < |s| ensures s[i] != c { }
    forall i ensures !OccursAt(s, q, i) {
      if 0 <= i && i + |q| <= |s| {
        assert s[i..i + |q|][k] == s[i + k] != c;
      }
    }
  }

  /** The ids of the cards a column shows, top to bottom: `taskIds` filtered
      by `Shown`. The render filter has three readings here, tied together by
      `VisibleTasksAtPositions` and `ShownIdsAtPositions`: `VisibleTasks` is
      the list the render builds, `VisiblePositions` translates drag indices
      into list positions, and `ShownIds` lets the splices of a drop be
      followed on the view, since it distributes over concatenation
      (`ShownIdsAppend`), which positions into a changing list do not. */
  function ShownIds(tasks: map<string, Task>, taskIds: seq<string>, query: string): (r: seq<string>)
    ensures |r| <= |taskIds|
    decreases |taskIds|
  {
    if taskIds == [] then []
    else
      var n := |taskIds| - 1;
      ShownIds(tasks, taskIds[..n], query) + (if Shown(tasks, taskIds[n], query) then [taskIds[n]] else [])
  }

  /** The filter distributes over concatenation. */
  lemma {:induction false} ShownIdsAppend(tasks: map<string, Task>, a: seq<string>, b: seq<string>, query: string)
    ensures ShownIds(tasks, a + b, query) == ShownIds(tasks, a, query) + ShownIds(tasks, b, query)
    decreases |b|
  {
    if b == [] {
      assert a + b == a;
    } else {
      var n := |b| - 1;
      var tail := if Shown(tasks, b[n], query) then [b[n]] else [];
      calc {
        ShownIds(tasks, a + b, query);
      == { ShownIdsLast(tasks, a + b, query);
           assert (a + b)[..|a + b| - 1] == a + b[..n];
           assert (a + b)[|a + b| - 1] == b[n]; }
        ShownIds(tasks, a + b[..n], query) + tail;
      == { ShownIdsAppend(tasks, a, b[..n], query); }
        ShownIds(tasks, a, query) + ShownIds(tasks, b[..n], query) + tail;
      == { ShownIdsLast(tasks, b, query); }
        ShownIds(tasks, a, query) + ShownIds(tasks, b, query);
      }
    }
  }

  /** The shown ids of a non-empty column: those of its prefix, then its last
      card if that one is shown. */
  lemma ShownIdsLast(tasks: map<string, Task>, s: seq<string>, query: string)
    requires s != []
    ensures ShownIds(tasks, s, query) == ShownIds(tasks, s[..|s| - 1], query)
      + (if Shown(tasks, s[|s| - 1], query) then [s[|s| - 1]] else [])
  {
  }

  /** A single card is shown exactly when it passes the filter. */
  lemma ShownIdsSingle(tasks: map<string, Task>, x: string, query: string)
    ensures ShownIds(tasks, [x], query) == if Shown(tasks, x, query) then [x] else []
  {
    assert [x][..0] == [];
  }

  /** The shown ids are the column read at the visible positions. */
  lemma {:induction false} ShownIdsAtPositions(tasks: map<string, Task>, taskIds: seq<string>, query: string)
    ensures |ShownIds(tasks, taskIds, query)| == |VisiblePositions(tasks, taskIds, query)|
    ensures forall k :: 0 <= k < |VisiblePositions(tasks, taskIds, query)| ==>
      ShownIds(tasks, taskIds, query)[k] == taskIds[VisiblePositions(tasks, taskIds, query)[k]]
    decreases |taskIds|
  {
    if taskIds != [] {
      var n := |taskIds| - 1;
      var init := taskIds[..n];
      ShownIdsAtPositions(tasks, init, query);
      var p := VisiblePositions(tasks, init, query);
      assert forall k :: 0 <= k < |p| ==> taskIds[p[k]] == init[p[k]];
    }
  }

  /** Exactly `v` cards are shown above the card shown at view index `v`. */
  lemma {:induction false} ShownAbove(tasks: map<string, Task>, taskIds: seq<string>, query: string, v: nat)
    requires v < |VisiblePositions(tasks, taskIds, query)|
    ensures |ShownIds(tasks, taskIds[..VisiblePositions(tasks, taskIds, query)[v]], query)| == v
    decreases |taskIds|
  {
    var n := |taskIds| - 1;
    var init := taskIds[..n];
    var p := VisiblePositions(tasks, init, query);
    if v < |p| {
      ShownAbove(tasks, init, query, v);
      assert taskIds[..p[v]] == init[..p[v]];
    } else {
      assert taskIds[..n] == init;
      ShownIdsAtPositions(tasks, init, query);
    }
  }

  /** Splitting a column at `k` splits its shown cards there, and a shown card
      put in at the split appears between the two halves. */
  lemma ShownIdsSplit(tasks: map<string, Task>, s: seq<string>, k: int, x: string, query: string)
    requires 0 <= k <= |s| && Shown(tasks, x, query)
    ensures ShownIds(tasks, s, query) == ShownIds(tasks, s[..k], query) + ShownIds(tasks, s[k..], query)
    ensures ShownIds(tasks, s[..k] + [x] + s[k..], query)
         == ShownIds(tasks, s[..k], query) + [x] + ShownIds(tasks, s[k..], query)
  {
    assert s[..k] + s[k..] == s;
    ShownIdsAppend(tasks, s[..k], s[k..], query);
    ShownIdsAppend(tasks, s[..k] + [x], s[k..], query);
    ShownIdsAppend(tasks, s[..k], [x], query);
    ShownIdsSingle(tasks, x, query);
  }

  /** Cutting out a shown card at `k` cuts it out of the shown cards and
      leaves those above and below it joined. */
  lemma ShownIdsCut(tasks: map<string, Task>, s: seq<string>, k: int, query: string)
    requires 0 <= k < |s| && Shown(tasks, s[k], query)
    ensures ShownIds(tasks, s, query)
         == ShownIds(tasks, s[..k], query) + [s[k]] + ShownIds(tasks, s[k + 1..], query)
    ensures ShownIds(tasks, s[..k] + s[k + 1..], query)
         == ShownIds(tasks, s[..k], query) + ShownIds(tasks, s[k + 1..], query)
  {
    assert s == s[..k] + [s[k]] + s[k + 1..];
    ShownIdsAppend(tasks, s[..k] + [s[k]], s[k + 1..], query);
    ShownIdsAppend(tasks, s[..k], [s[k]], query);
    ShownIdsAppend(tasks, s[..k], s[k + 1..], query);
    ShownIdsSingle(tasks, s[k], query);
  }
}
