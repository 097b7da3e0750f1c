/**
 * The leaderboard table (`renderTable` and `sortTable` in app.js): one row
 * per authority with its three counters and their total, and a sorter that
 * reorders the rows by a column, alternating the direction per column.
 */
module Leaderboard {
  import opened Aggregator

  /** A rendered row: authority, applications, dns, deployments, total. */
  datatype Row = Row(authority: string, applications: nat, dns: nat, deployments: nat, total: nat)

  /** The number of columns; column 0 is the authority, 1 to 4 are numbers. */
  const NumColumns: nat := 5

  // ---------------------------------------------------------------------
  // Rendering.
  // ---------------------------------------------------------------------

  /** The row rendered for `authority`, with the total points computed from the tally. */
  function RowOf(authority: string, s: Stats): (r: Row)
    ensures r.authority == authority
    ensures r.applications == s.applications && r.dns == s.dns && r.deployments == s.deployments
    ensures TotalIsSum(r)
  {
    Row(authority, s.applications, s.dns, s.deployments, s.applications + s.dns + s.deployments)
  }

  /** The total column agrees with the three counters. */
  predicate TotalIsSum(r: Row)
  {
    r.total == r.applications + r.dns + r.deployments
  }

  /** The authorities that have a row. */
  function RowAuthorities(rows: seq<Row>): set<string>
  {
    set i | 0 <= i < |rows| :: rows[i].authority
  }

  /** `rows` are the rows of exactly the entries `done` of `authorities`, one each. */
  predicate Rendered(authorities: Authorities, rows: seq<Row>, done: set<string>)
  {
    && done <= authorities.Keys
    && RowAuthorities(rows) == done
    && |rows| == |done|
    && (forall i, j :: 0 <= i < j < |rows| ==> rows[i].authority != rows[j].authority)
    && (forall i :: 0 <= i < |rows| ==>
          rows[i].authority in authorities && rows[i] == RowOf(rows[i].authority, authorities[rows[i].authority]))
  }

  /** Rendering one more entry, not rendered yet, extends the rendered rows by its row. */
  lemma RenderStep(authorities: Authorities, rows: seq<Row>, done: set<string>, authority: string)
    requires Rendered(authorities, rows, done)
    requires authority in authorities && authority !in done
    ensures Rendered(authorities, rows + [RowOf(authority, authorities[authority])], done + {authority})
  {
    var row := RowOf(authority, authorities[authority]);
    var rows' := rows + [row];
    assert forall i :: 0 <= i < |rows| ==> rows'[i] == rows[i];
    assert rows'[|rows|] == row;
    assert RowAuthorities(rows') == done + {authority};
    forall i | 0 <= i < |rows|
      ensures rows[i].authority != authority
    {
      assert rows[i].authority in RowAuthorities(rows);
    }
  }

  /**
   * The rows of renderTable, one per entry of the table, in an unspecified
   * order: every entry has exactly one row, that row shows the entry's
   * counters, and its total is their sum.
   */
  method RenderRows(authorities: Authorities) returns (rows: seq<Row>)
    ensures Rendered(authorities, rows, authorities.Keys)
    ensures |rows| == |authorities|
    ensures forall i :: 0 <= i < |rows| ==> TotalIsSum(rows[i])
  {
    rows := [];
    var remaining := authorities.Keys;
    ghost var done: set<string> := {};
    while remaining != {}
      invariant done !! remaining && done + remaining == authorities.Keys
      invariant Rendered(authorities, rows, done)
      decreases remaining
    {
      var authority :| authority in remaining;
      RenderStep(authorities, rows, done, authority);
      rows := rows + [RowOf(authority, authorities[authority])];
      remaining := remaining - {authority};
      done := done + {authority};
    }
    assert |authorities| == |authorities.Keys|;
  }

  // ---------------------------------------------------------------------
  // The comparison of sortTable.
  // ---------------------------------------------------------------------

  /**
   * Lexicographic three-way comparison of character codes: negative when
   * `a` comes first, zero when equal, positive when `b` comes first.
   */
  function CompareText(a: string, b: string): int
    decreases |a|
  {
    if a == [] && b == [] then 0
    else if a == [] then -1
    else if b == [] then 1
    else if a[0] < b[0] then -1
    else if a[0] > b[0] then 1
    else CompareText(a[1..], b[1..])
  }

  /** The number in a numeric column 1 to 4. */
  function Cell(r: Row, column: nat): int
    requires 1 <= column < NumColumns
  {
    match column
    case 1 => r.applications
    case 2 => r.dns
    case 3 => r.deployments
    case 4 => r.total
  }

  /** The comparison of two rows on a column: text for column 0, the difference of the numbers otherwise. */
  function Compare(x: Row, y: Row, column: nat): int
    requires column < NumColumns
  {
    if column == 0 then CompareText(x.authority, y.authority) else Cell(x, column) - Cell(y, column)
  }

  /** The comparator handed to the sort: the comparison, negated when descending. */
  function Comparator(x: Row, y: Row, column: nat, ascending: bool): (r: int)
    requires column < NumColumns
    ensures r == 0 <==> if column == 0 then x.authority == y.authority else Cell(x, column) == Cell(y, column)
  {
    CompareTextZero(x.authority, y.authority);
    if ascending then Compare(x, y, column) else -Compare(x, y, column)
  }

  /** `x` may stand before `y`. */
  predicate InOrder(x: Row, y: Row, column: nat, ascending: bool)
    requires column < NumColumns
  {
    Comparator(x, y, column, ascending) <= 0
  }

  /** Every row may stand before every later row. */
  predicate Sorted(s: seq<Row>, column: nat, ascending: bool)
    requires column < NumColumns
  {
    forall i, j :: 0 <= i < j < |s| ==> InOrder(s[i], s[j], column, ascending)
  }

  lemma {:induction false} CompareTextAntisymmetric(a: string, b: string)
    ensures CompareText(a, b) == -CompareText(b, a)
    decreases |a|
  {
    if a != [] && b != [] && a[0] == b[0] {
      CompareTextAntisymmetric(a[1..], b[1..]);
    }
  }

  lemma {:induction false} CompareTextZero(a: string, b: string)
    ensures CompareText(a, b) == 0 <==> a == b
    decreases |a|
  {
    if a != [] && b != [] && a[0] == b[0] {
      CompareTextZero(a[1..], b[1..]);
      assert a == [a[0]] + a[1..] && b == [b[0]] + b[1..];
    }
  }

  lemma {:induction false} CompareTextTransitive(a: string, b: string, c: string)
    requires CompareText(a, b) <= 0 && CompareText(b, c) <= 0
    ensures CompareText(a, c) <= 0
    decreases |a|
  {
    if a != [] && b != [] && c != [] && a[0] == b[0] && b[0] == c[0] {
      CompareTextTransitive(a[1..], b[1..], c[1..]);
    }
  }

  /** Swapping the arguments negates the comparator, so any two rows are in order one way or the other. */
  lemma ComparatorAntisymmetric(x: Row, y: Row, column: nat, ascending: bool)
    requires column < NumColumns
    ensures Comparator(x, y, column, ascending) == -Comparator(y, x, column, ascending)
    ensures InOrder(x, y, column, ascending) || InOrder(y, x, column, ascending)
  {
    CompareTextAntisymmetric(x.authority, y.authority);
  }

  /** "May stand before" is transitive, in either direction. */
  lemma ComparatorTransitive(x: Row, y: Row, z: Row, column: nat, ascending: bool)
    requires column < NumColumns
    requires InOrder(x, y, column, ascending) && InOrder(y, z, column, ascending)
    ensures InOrder(x, z, column, ascending)
  {
    if column == 0 {
      if ascending {
        CompareTextTransitive(x.authority, y.authority, z.authority);
      } else {
        CompareTextAntisymmetric(x.authority, y.authority);
        CompareTextAntisymmetric(y.authority, z.authority);
        CompareTextAntisymmetric(x.authority, z.authority);
        CompareTextTransitive(z.authority, y.authority, x.authority);
      }
    }
  }

  /**
   * What sorted means for the reader: on the authority column, text order
   * (forwards or backwards); on a numeric column, non-decreasing numbers
   * when ascending and non-increasing ones when descending.
   */
  lemma SortedMeaning(s: seq<Row>, column: nat, ascending: bool, i: nat, j: nat)
    requires column < NumColumns && Sorted(s, column, ascending)
    requires i < j < |s|
    ensures column == 0 && ascending ==> CompareText(s[i].authority, s[j].authority) <= 0
    ensures column == 0 && !ascending ==> CompareText(s[j].authority, s[i].authority) <= 0
    ensures column > 0 && ascending ==> Cell(s[i], column) <= Cell(s[j], column)
    ensures column > 0 && !ascending ==> Cell(s[i], column) >= Cell(s[j], column)
  {
    assert InOrder(s[i], s[j], column, ascending);
    CompareTextAntisymmetric(s[i].authority, s[j].authority);
  }

  // ---------------------------------------------------------------------
  // The sort, specified by a functional insertion sort.
  // ---------------------------------------------------------------------

  /**
   * `x` inserted into `s` from the right: it moves left past every row
   * that must follow it and stops behind the first row it may follow.
   */
  function Insert(s: seq<Row>, x: Row, column: nat, ascending: bool): seq<Row>
    requires column < NumColumns
    decreases |s|
  {
    if |s| > 0 && Comparator(s[|s| - 1], x, column, ascending) > 0
    then Insert(s[..|s| - 1], x, column, ascending) + [s[|s| - 1]]
    else s + [x]
  }

  /** The rows of `s` inserted one after another, first to last. */
  function InsertionSort(s: seq<Row>, column: nat, ascending: bool): seq<Row>
    requires column < NumColumns
    decreases |s|
  {
    if s == [] then [] else Insert(InsertionSort(s[..|s| - 1], column, ascending), s[|s| - 1], column, ascending)
  }

  /** The rows of `s` that compare equal to `r` on `column`, in their order in `s`. */
  function EqualRun(s: seq<Row>, r: Row, column: nat): seq<Row>
    requires column < NumColumns
    decreases |s|
  {
    if s == [] then []
    else EqualRun(s[..|s| - 1], r, column) + Single(s[|s| - 1], r, column)
  }

  /** Sorting `orig` into `s` was stable: rows with equal keys keep their relative order. */
  ghost predicate Stable(s: seq<Row>, orig: seq<Row>, column: nat)
    requires column < NumColumns
  {
    forall r :: EqualRun(s, r, column) == EqualRun(orig, r, column)
  }

  /** Rows with equal keys compare the same way against any third row. */
  lemma CompareEqualKeys(x: Row, r: Row, y: Row, column: nat)
    requires column < NumColumns && Compare(x, r, column) == 0
    ensures Compare(y, r, column) == Compare(y, x, column)
  {
    if column == 0 {
      CompareTextZero(x.authority, r.authority);
    }
  }

  lemma {:induction false} InsertMultiset(s: seq<Row>, x: Row, column: nat, ascending: bool)
    requires column < NumColumns
    ensures multiset(Insert(s, x, column, ascending)) == multiset(s) + multiset{x}
    ensures |Insert(s, x, column, ascending)| == |s| + 1
    decreases |s|
  {
    if |s| > 0 && Comparator(s[|s| - 1], x, column, ascending) > 0 {
      InsertMultiset(s[..|s| - 1], x, column, ascending);
      assert s == s[..|s| - 1] + [s[|s| - 1]];
    }
  }

  /** Inserting into a sorted sequence keeps it sorted. */
  lemma {:induction false} InsertSorted(s: seq<Row>, x: Row, column: nat, ascending: bool)
    requires column < NumColumns && Sorted(s, column, ascending)
    ensures Sorted(Insert(s, x, column, ascending), column, ascending)
    decreases |s|
  {
    if |s| > 0 && Comparator(s[|s| - 1], x, column, ascending) > 0 {
      assert Sorted(s[..|s| - 1], column, ascending);
      InsertSorted(s[..|s| - 1], x, column, ascending);
      InsertSortedPass(s, x, column, ascending);
    } else {
      InsertSortedStop(s, x, column, ascending);
    }
  }

  /** The step of InsertSorted where `x` passes the last row `y` of `s`: everything before `y` may precede it. */
  lemma InsertSortedPass(s: seq<Row>, x: Row, column: nat, ascending: bool)
    requires column < NumColumns && Sorted(s, column, ascending) && |s| > 0
    requires Comparator(s[|s| - 1], x, column, ascending) > 0
    requires Sorted(Insert(s[..|s| - 1], x, column, ascending), column, ascending)
    ensures Sorted(Insert(s, x, column, ascending), column, ascending)
  {
    var s', y := s[..|s| - 1], s[|s| - 1];
    var u := Insert(s', x, column, ascending);
    InsertMultiset(s', x, column, ascending);
    ComparatorAntisymmetric(y, x, column, ascending);
    assert Insert(s, x, column, ascending) == u + [y];
    forall k | 0 <= k < |u| ensures InOrder(u[k], y, column, ascending) {
      assert u[k] in multiset(u);
      if u[k] != x {
        assert u[k] in multiset(s');
        var m :| 0 <= m < |s'| && s'[m] == u[k];
        assert s[m] == u[k];
      }
    }
    SortedSnoc(u, y, column, ascending);
  }

  /** The step of InsertSorted where `x` stops behind the last row of `s`, or `s` is empty. */
  lemma InsertSortedStop(s: seq<Row>, x: Row, column: nat, ascending: bool)
    requires column < NumColumns && Sorted(s, column, ascending)
    requires |s| > 0 ==> Comparator(s[|s| - 1], x, column, ascending) <= 0
    ensures Sorted(Insert(s, x, column, ascending), column, ascending)
  {
    assert Insert(s, x, column, ascending) == s + [x];
    forall k | 0 <= k < |s| ensures InOrder(s[k], x, column, ascending) {
      if k < |s| - 1 {
        ComparatorTransitive(s[k], s[|s| - 1], x, column, ascending);
      }
    }
    SortedSnoc(s, x, column, ascending);
  }

  /** A sorted sequence extended by a row that every row of it may precede is sorted. */
  lemma SortedSnoc(s: seq<Row>, y: Row, column: nat, ascending: bool)
    requires column < NumColumns && Sorted(s, column, ascending)
    requires forall k :: 0 <= k < |s| ==> InOrder(s[k], y, column, ascending)
    ensures Sorted(s + [y], column, ascending)
  {
    var t := s + [y];
    forall k, l | 0 <= k < l < |t| ensures InOrder(t[k], t[l], column, ascending) {
      assert t[k] == s[k];
      if l < |s| {
        assert t[l] == s[l];
      }
    }
  }

  /** Inserting `x` puts it at the end of the rows equal to it, and moves no equal row past another. */
  lemma {:induction false} InsertRun(s: seq<Row>, x: Row, r: Row, column: nat, ascending: bool)
    requires column < NumColumns
    ensures EqualRun(Insert(s, x, column, ascending), r, column) == EqualRun(s, r, column) + Single(x, r, column)
    decreases |s|
  {
    if |s| > 0 && Comparator(s[|s| - 1], x, column, ascending) > 0 {
      InsertRun(s[..|s| - 1], x, r, column, ascending);
      InsertRunPass(s, x, r, column, ascending);
    } else {
      assert Insert(s, x, column, ascending) == s + [x];
      RunSnoc(s, x, r, column);
    }
  }

  /** The step of InsertRun where `x` passes the last row of `s`, which cannot be equal to it. */
  lemma InsertRunPass(s: seq<Row>, x: Row, r: Row, column: nat, ascending: bool)
    requires column < NumColumns && |s| > 0
    requires Comparator(s[|s| - 1], x, column, ascending) > 0
    requires EqualRun(Insert(s[..|s| - 1], x, column, ascending), r, column)
          == EqualRun(s[..|s| - 1], r, column) + Single(x, r, column)
    ensures EqualRun(Insert(s, x, column, ascending), r, column) == EqualRun(s, r, column) + Single(x, r, column)
  {
    var s', y := s[..|s| - 1], s[|s| - 1];
    var u := Insert(s', x, column, ascending);
    assert s == s' + [y];
    InsertPassShape(s, x, column, ascending);
    RunSnoc(u, y, r, column);
    RunSnoc(s', y, r, column);
    var before, after := EqualRun(s', r, column), EqualRun(u, r, column);
    assert after == before + Single(x, r, column);
    if Compare(x, r, column) == 0 {
      assert Compare(y, x, column) != 0;
      CompareEqualKeys(x, r, y, column);
      assert Single(y, r, column) == [];
      assert EqualRun(u + [y], r, column) == after;
      assert EqualRun(s, r, column) == before;
    } else {
      assert Single(x, r, column) == [];
      assert after == before;
      assert EqualRun(u + [y], r, column) == before + Single(y, r, column) == EqualRun(s, r, column);
    }
  }

  /** When `x` passes the last row of `s`, that row ends up last. */
  lemma InsertPassShape(s: seq<Row>, x: Row, column: nat, ascending: bool)
    requires column < NumColumns && |s| > 0
    requires Comparator(s[|s| - 1], x, column, ascending) > 0
    ensures Insert(s, x, column, ascending) == Insert(s[..|s| - 1], x, column, ascending) + [s[|s| - 1]]
  {
  }

  /** `[x]` when `x` is equal to `r`, and nothing otherwise. */
  function Single(x: Row, r: Row, column: nat): seq<Row>
    requires column < NumColumns
  {
    if Compare(x, r, column) == 0 then [x] else []
  }

  lemma RunSnoc(s: seq<Row>, x: Row, r: Row, column: nat)
    requires column < NumColumns
    ensures EqualRun(s + [x], r, column) == EqualRun(s, r, column) + Single(x, r, column)
  {
    assert (s + [x])[..|s|] == s;
  }

  lemma {:induction false} SortMultiset(s: seq<Row>, column: nat, ascending: bool)
    requires column < NumColumns
    ensures multiset(InsertionSort(s, column, ascending)) == multiset(s)
    ensures |InsertionSort(s, column, ascending)| == |s|
    decreases |s|
  {
    if s != [] {
      SortMultiset(s[..|s| - 1], column, ascending);
      InsertMultiset(InsertionSort(s[..|s| - 1], column, ascending), s[|s| - 1], column, ascending);
      assert s == s[..|s| - 1] + [s[|s| - 1]];
    }
  }

  lemma {:induction false} SortSorted(s: seq<Row>, column: nat, ascending: bool)
    requires column < NumColumns
    ensures Sorted(InsertionSort(s, column, ascending), column, ascending)
    decreases |s|
  {
    if s != [] {
      SortSorted(s[..|s| - 1], column, ascending);
      InsertSorted(InsertionSort(s[..|s| - 1], column, ascending), s[|s| - 1], column, ascending);
    }
  }

  lemma {:induction false} SortStable(s: seq<Row>, column: nat, ascending: bool)
    requires column < NumColumns
    ensures Stable(InsertionSort(s, column, ascending), s, column)
    decreases |s|
  {
    if s != [] {
      forall r ensures EqualRun(InsertionSort(s, column, ascending), r, column) == EqualRun(s, r, column) {
        SortStable(s[..|s| - 1], column, ascending);
        assert EqualRun(InsertionSort(s[..|s| - 1], column, ascending), r, column) == EqualRun(s[..|s| - 1], r, column);
        InsertRun(InsertionSort(s[..|s| - 1], column, ascending), s[|s| - 1], r, column, ascending);
      }
    }
  }

  /** Rows that are already in order stay where they are. */
  lemma {:induction false} SortSortedIdentity(s: seq<Row>, column: nat, ascending: bool)
    requires column < NumColumns && Sorted(s, column, ascending)
    ensures InsertionSort(s, column, ascending) == s
    decreases |s|
  {
    if s != [] {
      var s' := s[..|s| - 1];
      assert Sorted(s', column, ascending);
      SortSortedIdentity(s', column, ascending);
      if |s'| > 0 {
        assert InOrder(s[|s| - 2], s[|s| - 1], column, ascending);
      }
      assert s == s' + [s[|s| - 1]];
    }
  }

  /**
   * The inner loop of the sort: the row at position `i` moves left past
   * every row that must follow it. The first `i` rows end up holding
   * `Insert` of their old contents and the moving row; the rows after `i`
   * stay put.
   */
  method InsertNext(a: array<Row>, i: nat, column: nat, ascending: bool)
    requires column < NumColumns && i < a.Length
    modifies a
    ensures a[..] == Insert(old(a[..i]), old(a[i]), column, ascending) + old(a[i + 1..])
  {
    ghost var prefix, x, rest := a[..i], a[i], a[i + 1..];
    var j: nat := i;
    assert prefix[..j] == prefix && prefix[j..] == [];
    assert a[..] == prefix[..j] + [x] + prefix[j..] + rest;
    while j > 0 && Comparator(a[j - 1], a[j], column, ascending) > 0
      invariant j <= i
      invariant a[..] == prefix[..j] + [x] + prefix[j..] + rest
      invariant Insert(prefix, x, column, ascending) == Insert(prefix[..j], x, column, ascending) + prefix[j..]
    {
      ghost var before := a[..];
      SwapStep(prefix, x, rest, j);
      InsertPass(prefix, x, j, column, ascending);
      a[j - 1], a[j] := a[j], a[j - 1];
      assert a[..] == before[j - 1 := x][j := prefix[j - 1]];
      j := j - 1;
    }
    InsertStop(prefix, x, j, column, ascending);
  }

  /** The moving row passes a neighbour that must follow it. */
  lemma InsertPass(prefix: seq<Row>, x: Row, j: nat, column: nat, ascending: bool)
    requires column < NumColumns && 0 < j <= |prefix|
    requires Comparator(prefix[j - 1], x, column, ascending) > 0
    ensures Insert(prefix[..j], x, column, ascending) + prefix[j..]
         == Insert(prefix[..j - 1], x, column, ascending) + prefix[j - 1..]
  {
    assert prefix[..j][..j - 1] == prefix[..j - 1];
    assert prefix[j - 1..] == [prefix[j - 1]] + prefix[j..];
  }

  /** The moving row stops behind a neighbour it may follow, or at the front. */
  lemma InsertStop(prefix: seq<Row>, x: Row, j: nat, column: nat, ascending: bool)
    requires column < NumColumns && j <= |prefix|
    requires j > 0 ==> Comparator(prefix[j - 1], x, column, ascending) <= 0
    ensures Insert(prefix[..j], x, column, ascending) == prefix[..j] + [x]
  {
  }

  /** Exchanging the moving row with its left neighbour moves it one place left. */
  lemma SwapStep(prefix: seq<Row>, x: Row, rest: seq<Row>, j: nat)
    requires 0 < j <= |prefix|
    ensures var s := prefix[..j] + [x] + prefix[j..] + rest;
      && s[j - 1] == prefix[j - 1] && s[j] == x
      && s[j - 1 := x][j := prefix[j - 1]] == prefix[..j - 1] + [x] + prefix[j - 1..] + rest
  {
    var s := prefix[..j] + [x] + prefix[j..] + rest;
    var t := prefix[..j - 1] + [x] + prefix[j - 1..] + rest;
    forall k | 0 <= k < |s| ensures s[j - 1 := x][j := prefix[j - 1]][k] == t[k] {
      if k < j - 1 {
        assert s[k] == prefix[k] && t[k] == prefix[k];
      } else if k > j {
        assert s[k] == t[k];
      }
    }
  }

  /**
   * `rows.sort(comparator)`: the rows end up sorted by the comparator,
   * as a permutation of the rows they started as, with equal rows in
   * their original relative order; rows already in order are left as
   * they are.
   */
  method SortRows(a: array<Row>, column: nat, ascending: bool)
    requires column < NumColumns
    modifies a
    ensures a[..] == InsertionSort(old(a[..]), column, ascending)
    ensures Sorted(a[..], column, ascending)
    ensures multiset(a[..]) == multiset(old(a[..]))
    ensures Stable(a[..], old(a[..]), column)
    ensures Sorted(old(a[..]), column, ascending) ==> a[..] == old(a[..])
  {
    ghost var orig := a[..];
    var i := 0;
    while i < a.Length
      invariant i <= a.Length == |orig|
      invariant a[..] == InsertionSort(orig[..i], column, ascending) + orig[i..]
    {
      SortStep(orig, i, column, ascending);
      InsertNext(a, i, column, ascending);
      i := i + 1;
    }
    assert orig[..i] == orig;
    SortFacts(orig, column, ascending);
  }

  /** One pass of the outer loop, on values: the next row is inserted into the sorted prefix. */
  lemma SortStep(orig: seq<Row>, i: nat, column: nat, ascending: bool)
    requires column < NumColumns && i < |orig|
    ensures var done := InsertionSort(orig[..i], column, ascending);
      && |done| == i
      && (done + orig[i..])[..i] == done
      && (done + orig[i..])[i] == orig[i]
      && (done + orig[i..])[i + 1..] == orig[i + 1..]
      && InsertionSort(orig[..i + 1], column, ascending) == Insert(done, orig[i], column, ascending)
  {
    SortMultiset(orig[..i], column, ascending);
    assert orig[..i + 1][..i] == orig[..i];
  }

  /** Everything the sort promises about its result, gathered for the method. */
  lemma SortFacts(orig: seq<Row>, column: nat, ascending: bool)
    requires column < NumColumns
    ensures var sorted := InsertionSort(orig, column, ascending);
      && Sorted(sorted, column, ascending)
      && multiset(sorted) == multiset(orig)
      && Stable(sorted, orig, column)
      && (Sorted(orig, column, ascending) ==> sorted == orig)
  {
    SortSorted(orig, column, ascending);
    SortMultiset(orig, column, ascending);
    SortStable(orig, column, ascending);
    if Sorted(orig, column, ascending) {
      SortSortedIdentity(orig, column, ascending);
    }
  }

  // ---------------------------------------------------------------------
  // The sorter and its per-column directions.
  // ---------------------------------------------------------------------

  /** The table sorter and its `sortDirections`: true means the next sort on that column ascends. */
  class Sorter {
    var sortDirections: array<bool>

    ghost predicate Valid()
      reads this
    {
      sortDirections.Length == NumColumns
    }

    /** At start-up every column sorts ascending first. */
    constructor ()
      ensures Valid() && fresh(sortDirections)
      ensures forall c :: 0 <= c < NumColumns ==> sortDirections[c]
    {
      sortDirections := new bool[NumColumns](_ => true);
    }

    /**
     * sortTable: sort the rows on `column` in the column's current
     * direction, then flip that column's direction and no other.
     */
    method SortTable(rows: array<Row>, column: nat)
      requires Valid() && column < NumColumns
      modifies rows, sortDirections
      ensures Valid() && sortDirections == old(sortDirections)
      ensures rows[..] == InsertionSort(old(rows[..]), column, old(sortDirections[column]))
      ensures Sorted(rows[..], column, old(sortDirections[column]))
      ensures multiset(rows[..]) == multiset(old(rows[..]))
      ensures Stable(rows[..], old(rows[..]), column)
      ensures sortDirections[column] == !old(sortDirections[column])
      ensures forall c :: 0 <= c < NumColumns && c != column ==> sortDirections[c] == old(sortDirections[c])
    {
      SortRows(rows, column, sortDirections[column]);
      sortDirections[column] := !sortDirections[column];
    }
  }

  /**
   * Two sorts in a row on the same column: the second reverses the
   * direction of the first, and the column's direction is back where it was.
   */
  method SortTwice(sorter: Sorter, rows: array<Row>, column: nat)
    requires sorter.Valid() && column < NumColumns
    modifies rows, sorter.sortDirections
    ensures sorter.Valid()
    ensures Sorted(rows[..], column, !old(sorter.sortDirections[column]))
    ensures multiset(rows[..]) == multiset(old(rows[..]))
    ensures sorter.sortDirections[..] == old(sorter.sortDirections[..])
  {
    ghost var orig := rows[..];
    sorter.SortTable(rows, column);
    ghost var middle := rows[..];
    sorter.SortTable(rows, column);
    SortMultiset(orig, column, old(sorter.sortDirections[column]));
    SortMultiset(middle, column, !old(sorter.sortDirections[column]));
    SortSorted(middle, column, !old(sorter.sortDirections[column]));
    assert sorter.sortDirections[..] == old(sorter.sortDirections[..]);
  }
}
