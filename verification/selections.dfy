/** The fixed-size selections: newest recipes, today's random selection and the
    featured recipes per difficulty. The database's `ORDER BY RAND()` is modelled as
    an arbitrary choice: only how many recipes are chosen and from where is fixed. */
module Selections {
  import opened Seqs
  import opened Entities

  function Min(a: int, b: int): int { if a < b then a else b }

  /** The identifiers of a list of recipes. */
  function IdsOf(rs: seq<Recipe>): set<int> {
    set r | r in rs :: r.id
  }

  /** A non-empty finite set of rows has a row of largest id. */
  lemma {:induction false} HasLargestId(rows: set<RecipeRow>)
    requires rows != {}
    ensures exists m :: m in rows && forall r :: r in rows ==> r.id <= m.id
    decreases rows
  {
    var x :| x in rows;
    if rows - {x} != {} {
      HasLargestId(rows - {x});
      var m :| m in rows - {x} && forall r :: r in rows - {x} ==> r.id <= m.id;
      if m.id < x.id {
        assert forall r :: r in rows ==> r.id <= x.id;
      } else {
        assert forall r :: r in rows ==> r.id <= m.id;
      }
    } else {
      assert rows == {x};
    }
  }

  /** The `k` rows of largest id, in descending id order (`order: { id: "DESC" }, take: k`). */
  method TopByIdDesc(rows: seq<RecipeRow>, k: nat) returns (top: seq<RecipeRow>)
    requires UniqueIds(rows)
    ensures |top| == Min(k, |rows|)
    ensures forall i :: 0 <= i < |top| ==> top[i] in rows
    ensures forall i, j :: 0 <= i < j < |top| ==> top[i].id > top[j].id
    ensures forall row, i :: row in rows && row !in top && 0 <= i < |top| ==> row.id < top[i].id
  {
    UniqueIdsDistinct(rows);
    DistinctCardinality(rows);
    top := [];
    var rest := set row | row in rows;
    while |top| < k && rest != {}
      invariant forall row :: row in rest ==> row in rows
      invariant forall row :: row in rows ==> (row in rest <==> row !in top)
      invariant |top| + |rest| == |rows|
      invariant |top| <= k
      invariant forall i :: 0 <= i < |top| ==> top[i] in rows
      invariant forall i, j :: 0 <= i < j < |top| ==> top[i].id > top[j].id
      invariant forall row, i :: row in rest && 0 <= i < |top| ==> row.id < top[i].id
      decreases rest
    {
      HasLargestId(rest);
      var best :| best in rest && forall r :: r in rest ==> r.id <= best.id;
      forall r | r in rest - {best} ensures r.id < best.id {
        if r.id == best.id {
          IdsDetermineRows(rows, r, best);
        }
      }
      top := top + [best];
      rest := rest - {best};
    }
  }

  /** `getNewest`: the three recipes of largest id, newest first. */
  method GetNewest(s: Store) returns (r: seq<Recipe>)
    requires UniqueIds(s.recipes)
    ensures |r| == Min(3, |s.recipes|)
    ensures forall i, j :: 0 <= i < j < |r| ==> r[i].id > r[j].id
    ensures forall i :: 0 <= i < |r| ==> exists row :: row in s.recipes && r[i] == Load(s, row)
    ensures forall row, i :: row in s.recipes && row.id !in IdsOf(r) && 0 <= i < |r| ==> row.id < r[i].id
  {
    var top := TopByIdDesc(s.recipes, 3);
    r := seq(|top|, i requires 0 <= i < |top| => Load(s, top[i]));
    assert forall i :: 0 <= i < |r| ==> top[i] in s.recipes && r[i] == Load(s, top[i]);
    forall row | row in top ensures row.id in IdsOf(r) {
      var i :| 0 <= i < |top| && top[i] == row;
      assert r[i] in r;
    }
  }

  /** An arbitrary choice of `k` distinct elements of `pool`, or all of them when the
      pool is smaller (`ORDER BY RAND() ... take(k)`). */
  method Sample<T(==)>(pool: set<T>, k: nat) returns (pick: seq<T>)
    ensures |pick| == Min(k, |pool|)
    ensures Distinct(pick)
    ensures forall x :: x in pick ==> x in pool
  {
    pick := [];
    var rest := pool;
    while |pick| < k && rest != {}
      invariant rest <= pool
      invariant forall x :: x in pick ==> x in pool && x !in rest
      invariant Distinct(pick)
      invariant |pick| + |rest| == |pool|
      invariant |pick| <= k
      decreases rest
    {
      var x :| x in rest;
      pick := pick + [x];
      rest := rest - {x};
    }
  }

  /** Distinct rows of a table with unique keys read as recipes of distinct ids. */
  lemma SummariesHaveDistinctIds(s: Store, pick: seq<RecipeRow>, r: seq<RecipeSummary>)
    requires UniqueIds(s.recipes) && Distinct(pick)
    requires forall x :: x in pick ==> x in s.recipes
    requires |r| == |pick| && forall i :: 0 <= i < |r| ==> r[i] == Summarize(s, pick[i])
    ensures forall i, j :: 0 <= i < j < |r| ==> r[i].id != r[j].id
  {
    forall i, j | 0 <= i < j < |r| ensures r[i].id != r[j].id {
      if r[i].id == r[j].id {
        IdsDetermineRows(s.recipes, pick[i], pick[j]);
      }
    }
  }

  /** `getTodaySelection`: five distinct stored recipes, or all of them when fewer. */
  method GetTodaySelection(s: Store) returns (r: seq<RecipeSummary>)
    requires UniqueIds(s.recipes)
    ensures |r| == Min(5, |s.recipes|)
    ensures forall i, j :: 0 <= i < j < |r| ==> r[i].id != r[j].id
    ensures forall i :: 0 <= i < |r| ==> exists row :: row in s.recipes && r[i] == Summarize(s, row)
  {
    UniqueIdsDistinct(s.recipes);
    DistinctCardinality(s.recipes);
    var pick := Sample(set row | row in s.recipes, 5);
    r := seq(|pick|, i requires 0 <= i < |pick| => Summarize(s, pick[i]));
    SummariesHaveDistinctIds(s, pick, r);
    assert forall i :: 0 <= i < |r| ==> pick[i] in pick;
  }

  /** The `where recipe.difficulty = d` condition. */
  function OfDifficulty(d: Difficulty): RecipeRow -> bool {
    (row: RecipeRow) => row.difficulty == d
  }

  /** The stored rows of one difficulty, in table order. */
  function WithDifficulty(rows: seq<RecipeRow>, d: Difficulty): (m: seq<RecipeRow>)
    ensures forall row :: row in m ==> row in rows && row.difficulty == d
    ensures forall row :: row in rows && row.difficulty == d ==> row in m
  {
    Filter(rows, OfDifficulty(d))
  }

  /** One featured bucket: up to three distinct stored recipes of difficulty `d`. */
  method Bucket(s: Store, d: Difficulty) returns (r: seq<RecipeSummary>)
    requires UniqueIds(s.recipes)
    ensures |r| == Min(3, |WithDifficulty(s.recipes, d)|)
    ensures forall i :: 0 <= i < |r| ==> r[i].difficulty == d
    ensures forall i, j :: 0 <= i < j < |r| ==> r[i].id != r[j].id
    ensures forall i :: 0 <= i < |r| ==> exists row :: row in s.recipes && r[i] == Summarize(s, row)
  {
    var matching := WithDifficulty(s.recipes, d);
    UniqueIdsDistinct(s.recipes);
    FilterKeepsDistinct(s.recipes, OfDifficulty(d));
    DistinctCardinality(matching);
    var pool := set row | row in matching;
    var pick := Sample(pool, 3);
    r := seq(|pick|, i requires 0 <= i < |pick| => Summarize(s, pick[i]));
    SummariesHaveDistinctIds(s, pick, r);
    assert forall i :: 0 <= i < |r| ==> pick[i] in pick;
  }

  datatype Featured = Featured(easy: seq<RecipeSummary>, medium: seq<RecipeSummary>,
                               hard: seq<RecipeSummary>)

  /** `getFeatured`: three independent buckets, one per difficulty. */
  method GetFeatured(s: Store) returns (f: Featured)
    requires UniqueIds(s.recipes)
    ensures |f.easy| == Min(3, |WithDifficulty(s.recipes, Easy)|)
    ensures |f.medium| == Min(3, |WithDifficulty(s.recipes, Medium)|)
    ensures |f.hard| == Min(3, |WithDifficulty(s.recipes, Hard)|)
    ensures forall i :: 0 <= i < |f.easy| ==> f.easy[i].difficulty == Easy
    ensures forall i :: 0 <= i < |f.medium| ==> f.medium[i].difficulty == Medium
    ensures forall i :: 0 <= i < |f.hard| ==> f.hard[i].difficulty == Hard
    ensures forall i, j :: 0 <= i < j < |f.easy| ==> f.easy[i].id != f.easy[j].id
    ensures forall i, j :: 0 <= i < j < |f.medium| ==> f.medium[i].id != f.medium[j].id
    ensures forall i, j :: 0 <= i < j < |f.hard| ==> f.hard[i].id != f.hard[j].id
    ensures forall i :: 0 <= i < |f.easy| ==> exists row :: row in s.recipes && f.easy[i] == Summarize(s, row)
    ensures forall i :: 0 <= i < |f.medium| ==> exists row :: row in s.recipes && f.medium[i] == Summarize(s, row)
    ensures forall i :: 0 <= i < |f.hard| ==> exists row :: row in s.recipes && f.hard[i] == Summarize(s, row)
  {
    var easy := Bucket(s, Easy);
    var medium := Bucket(s, Medium);
    var hard := Bucket(s, Hard);
    f := Featured(easy, medium, hard);
  }
}
