/** The plan checks of the crawl pipeline, and why they give the batch runner a full range. */
module CrawlPlan {
  import opened Basics
  import opened ChapterStore
  import opened BatchMachine
  import opened BatchLaws
  import ChapterLaws

  datatype Plan = Plan(book: int, start: int, end: int, count: int)

  /** The numeric checks of `_plan`. */
  predicate PlanOk(p: Plan) {
    && 1 <= p.book <= 2_147_483_647
    && 1 <= p.start <= p.end <= MaxIndex
    && 1 <= p.count <= 1_000_000
    && p.count == p.end - p.start + 1
  }

  /** The checks `validating` makes on a chapter list before it writes a plan. */
  function PlanFor(book: int, indexes: seq<int>): (plan: Option<Plan>) {
    if indexes == [] then None
    else
      var start, end, count := indexes[0], indexes[|indexes| - 1], |indexes|;
      if 1 <= start <= end <= MaxIndex && 1 <= count <= 1_000_000 && count == end - start + 1
         && forall k :: 0 <= k < |indexes| ==> indexes[k] == start + k
      then Some(Plan(book, start, end, count)) else None
  }

  /** A plan is written exactly for an unbroken rising block of chapters, and names just that block. */
  lemma PlanNamesTheBlock(book: int, indexes: seq<int>)
    requires 1 <= book <= 2_147_483_647
    ensures PlanFor(book, indexes).Some? <==>
      0 < |indexes| <= 1_000_000 && indexes[0] >= 1 && indexes[0] + |indexes| - 1 <= MaxIndex
      && forall k :: 0 <= k < |indexes| ==> indexes[k] == indexes[0] + k
    ensures PlanFor(book, indexes).Some? ==>
      var p := PlanFor(book, indexes).value;
      PlanOk(p) && forall i :: i in indexes <==> p.start <= i <= p.end
  {
    if PlanFor(book, indexes).Some? {
      var p := PlanFor(book, indexes).value;
      forall i | p.start <= i <= p.end ensures i in indexes {
        assert indexes[i - p.start] == i;
      }
    }
  }

  /** `inventory["total"]`. */
  ghost function Inventory(t: Table, p: Plan): nat {
    |RowsIn(t, p.book, p.start, Some(p.end))|
  }

  lemma {:induction false} DistinctIndexes(t: Table, rows: set<nat>)
    requires Keyed(t) && rows <= t.Keys
    requires forall a, b :: a in rows && b in rows ==> t[a].book == t[b].book
    ensures |set id | id in rows :: t[id].index| == |rows|
  {
    if rows != {} {
      var id :| id in rows;
      var rest := rows - {id};
      DistinctIndexes(t, rest);
      var small := set x | x in rest :: t[x].index;
      forall x | x in rest ensures t[x].index != t[id].index {
        assert !SameChapter(t[x], t[id]);
      }
      assert (set x | x in rows :: t[x].index) == small + {t[id].index};
    }
  }

  lemma {:induction false} SpanSize(lo: int, hi: int)
    requires lo <= hi + 1
    ensures |Span(lo, hi)| == hi - lo + 1
    decreases hi - lo + 1
  {
    if lo == hi + 1 {
      assert Span(lo, hi) == {};
    } else {
      SpanSize(lo, hi - 1);
      forall i ensures i in Span(lo, hi) <==> i in Span(lo, hi - 1) + {hi} {
        assert InRange(i, lo, Some(hi)) <==> InRange(i, lo, Some(hi - 1)) || i == hi;
      }
      assert Span(lo, hi) == Span(lo, hi - 1) + {hi};
    }
  }

  lemma SameSizeSubset<T>(a: set<T>, b: set<T>)
    requires a <= b && |a| == |b|
    ensures a == b
  {
    if x :| x in b && x !in a {
      SmallerSubset(a, b - {x});
    }
  }

  lemma {:induction false} SmallerSubset<T>(a: set<T>, b: set<T>)
    requires a <= b
    ensures |a| <= |b|
  {
    if a != {} {
      var x :| x in a;
      SmallerSubset(a - {x}, b - {x});
    }
  }

  /** The check that `crawling` makes is exact: the inventory equals the planned count if and only
   *  if every chapter of the range has a row. */
  lemma InventoryMeansFull(t: Table, p: Plan)
    requires Keyed(t) && PlanOk(p)
    ensures Inventory(t, p) == p.count <==> HaveRows(t, p.book, Span(p.start, p.end))
  {
    var rows := RowsIn(t, p.book, p.start, Some(p.end));
    var have := IndexesIn(t, p.book, p.start, Some(p.end));
    DistinctIndexes(t, rows);
    assert have == set id | id in rows :: t[id].index;
    SpanSize(p.start, p.end);
    forall i | i in have ensures i in Span(p.start, p.end) {
      assert InRange(i, p.start, Some(p.end));
    }
    if Inventory(t, p) == p.count {
      SameSizeSubset(have, Span(p.start, p.end));
      forall i | i in Span(p.start, p.end) ensures RowAt(t, p.book, i).Some? {
        var id :| id in rows && t[id].index == i;
        assert At(t[id], p.book, i);
      }
    }
    if HaveRows(t, p.book, Span(p.start, p.end)) {
      forall i | i in Span(p.start, p.end) ensures i in have {
        var id := RowAt(t, p.book, i).value;
        assert id in rows;
      }
      assert have == Span(p.start, p.end);
    }
  }

  /** The pipeline and the runner together: when the inventory check has passed and the task has not
   *  run before, any later COMPLETED means that every planned chapter is done. */
  lemma CrawlCompletes(w: World, steps: seq<Step>, p: Plan, task: string, run: nat)
    requires ChapterLaws.TableInv(w.store) && PlanOk(p) && Inventory(w.store.table, p) == p.count
    requires task !in w.checkpoints && forall id :: id in w.runs ==> w.runs[id].cfg.task != task
    requires SamePlan(steps, Job(task, p.book, p.start, Span(p.start, p.end)))
    requires var v := Play(w, steps);
      && run in v.runs && v.runs[run].cfg.task == task && v.runs[run].pc == Ended(Completed)
      && v.runs[run].cfg.book == p.book && v.runs[run].cfg.start == p.start && v.runs[run].cfg.end == Some(p.end)
    ensures forall i :: p.start <= i <= p.end ==> DoneAt(Play(w, steps).store.table, p.book, i)
  {
    InventoryMeansFull(w.store.table, p);
    CompletedFillsRange(w, steps, task, p.book, p.start, p.end, run);
  }
}
