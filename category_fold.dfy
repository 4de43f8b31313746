/** Folding the rare proposition types into one category (teste.py, the
    block that builds `proposicao_tipo`): count the records of each type and
    their share, relabel every type with a share below one percent as
    "Outras", add the rows up again per label, and sort by count. */
module CategoryFold {
  import opened Wrappers

  /** One row of the table: a label, its number of records and its share. */
  datatype TypeRow = TypeRow(name: string, count: nat, prop: real)

  /** The two summed columns of the table. */
  datatype Measure = Count | Share

  const Others: string := "Outras"
  const Cutoff: real := 0.01

  function Amount(r: TypeRow, m: Measure): real {
    match m
    case Count => r.count as real
    case Share => r.prop
  }

  // ---------------------------------------------------------------------
  // Labels and their order (Python compares strings code point by code point)
  // ---------------------------------------------------------------------

  predicate LabelBefore(a: string, b: string) {
    if a == [] then b != []
    else b != [] && (a[0] < b[0] || (a[0] == b[0] && LabelBefore(a[1..], b[1..])))
  }

  lemma {:induction false} LabelBeforeIrreflexive(a: string)
    ensures !LabelBefore(a, a)
  {
    if a != [] {
      LabelBeforeIrreflexive(a[1..]);
    }
  }

  lemma {:induction false} LabelBeforeTransitive(a: string, b: string, c: string)
    requires LabelBefore(a, b) && LabelBefore(b, c)
    ensures LabelBefore(a, c)
  {
    if a != [] && a[0] == b[0] && b[0] == c[0] {
      LabelBeforeTransitive(a[1..], b[1..], c[1..]);
    }
  }

  lemma {:induction false} LabelBeforeTotal(a: string, b: string)
    requires a != b
    ensures LabelBefore(a, b) || LabelBefore(b, a)
  {
    if a != [] && b != [] && a[0] == b[0] {
      assert a == [a[0]] + a[1..] && b == [b[0]] + b[1..];
      LabelBeforeTotal(a[1..], b[1..]);
    }
  }

  /** The labels that occur in a table. */
  function Labels(rows: seq<TypeRow>): set<string> {
    if rows == [] then {} else {rows[0].name} + Labels(rows[1..])
  }

  lemma {:induction false} LabelAt(rows: seq<TypeRow>, i: nat)
    requires i < |rows|
    ensures rows[i].name in Labels(rows)
  {
    if i > 0 {
      assert rows[1..][i - 1] == rows[i];
      LabelAt(rows[1..], i - 1);
    }
  }

  lemma {:induction false} LabelHasRow(rows: seq<TypeRow>, l: string)
    requires l in Labels(rows)
    ensures exists i :: 0 <= i < |rows| && rows[i].name == l
  {
    if rows[0].name != l {
      LabelHasRow(rows[1..], l);
      var i :| 0 <= i < |rows[1..]| && rows[1..][i].name == l;
      assert rows[i + 1].name == l;
    }
  }

  /** No label occurs twice. */
  predicate Distinct(rows: seq<TypeRow>) {
    rows == [] || (rows[0].name !in Labels(rows[1..]) && Distinct(rows[1..]))
  }

  /** `l` comes before every label of the table. */
  predicate Precedes(l: string, rows: seq<TypeRow>) {
    forall m :: m in Labels(rows) ==> LabelBefore(l, m)
  }

  /** Labels strictly ascending, as the result of a groupby on the labels. */
  predicate Ascending(rows: seq<TypeRow>) {
    rows == [] || (Precedes(rows[0].name, rows[1..]) && Ascending(rows[1..]))
  }

  lemma {:induction false} AscendingIsDistinct(rows: seq<TypeRow>)
    requires Ascending(rows)
    ensures Distinct(rows)
  {
    if rows != [] {
      LabelBeforeIrreflexive(rows[0].name);
      AscendingIsDistinct(rows[1..]);
    }
  }

  lemma PrecedesFirst(l: string, rows: seq<TypeRow>)
    requires Ascending(rows) && rows != [] && LabelBefore(l, rows[0].name)
    ensures Precedes(l, rows)
  {
    forall m | m in Labels(rows) ensures LabelBefore(l, m) {
      if m != rows[0].name {
        LabelBeforeTransitive(l, rows[0].name, m);
      }
    }
  }

  /** Distinct labels, stated position by position. */
  lemma {:induction false} DistinctPositions(rows: seq<TypeRow>)
    requires Distinct(rows)
    ensures forall i, j :: 0 <= i < j < |rows| ==> rows[i].name != rows[j].name
  {
    if rows != [] {
      DistinctPositions(rows[1..]);
      forall i, j | 0 <= i < j < |rows| ensures rows[i].name != rows[j].name {
        if i == 0 {
          assert rows[j] == rows[1..][j - 1];
          LabelAt(rows[1..], j - 1);
        } else {
          assert rows[i] == rows[1..][i - 1] && rows[j] == rows[1..][j - 1];
        }
      }
    }
  }

  // ---------------------------------------------------------------------
  // Column sums per label, and grouping (groupby(...).sum())
  // ---------------------------------------------------------------------

  /** The sum of measure `m` over the rows labelled `l`. */
  function SumFor(rows: seq<TypeRow>, l: string, m: Measure): real {
    if rows == [] then 0.0
    else (if rows[0].name == l then Amount(rows[0], m) else 0.0) + SumFor(rows[1..], l, m)
  }

  /** The sum of measure `m` over the whole table. */
  function Total(rows: seq<TypeRow>, m: Measure): real {
    if rows == [] then 0.0 else Amount(rows[0], m) + Total(rows[1..], m)
  }

  predicate Positive(rows: seq<TypeRow>) {
    forall i :: 0 <= i < |rows| ==> rows[i].count >= 1
  }

  lemma {:induction false} SumForAbsent(rows: seq<TypeRow>, l: string, m: Measure)
    requires l !in Labels(rows)
    ensures SumFor(rows, l, m) == 0.0
  {
    if rows != [] {
      SumForAbsent(rows[1..], l, m);
    }
  }

  /** In a table with distinct labels, the sum for a row's label is that row's value. */
  lemma {:induction false} RowAmount(rows: seq<TypeRow>, i: nat, m: Measure)
    requires Distinct(rows) && i < |rows|
    ensures SumFor(rows, rows[i].name, m) == Amount(rows[i], m)
  {
    if i == 0 {
      SumForAbsent(rows[1..], rows[0].name, m);
    } else {
      assert rows[1..][i - 1] == rows[i];
      LabelAt(rows[1..], i - 1);
      RowAmount(rows[1..], i - 1, m);
    }
  }

  /** Adds row `x` into a table grouped by label: into the row of its label
      when there is one, as a new row in label order otherwise. */
  function Merge(rows: seq<TypeRow>, x: TypeRow): (r: seq<TypeRow>)
    requires Ascending(rows)
    ensures Ascending(r)
    ensures Labels(r) == Labels(rows) + {x.name}
  {
    if rows == [] then
      assert [x][1..] == [];
      [x]
    else if rows[0].name == x.name then
      var r := [TypeRow(x.name, rows[0].count + x.count, rows[0].prop + x.prop)] + rows[1..];
      assert r[1..] == rows[1..];
      r
    else if LabelBefore(x.name, rows[0].name) then
      PrecedesFirst(x.name, rows);
      var r := [x] + rows;
      assert r[1..] == rows;
      r
    else
      LabelBeforeTotal(x.name, rows[0].name);
      var rest := Merge(rows[1..], x);
      var r := [rows[0]] + rest;
      assert r[1..] == rest;
      r
  }

  /** Merging adds the row's count and share to its label and to nothing else. */
  lemma {:induction false} MergeSums(rows: seq<TypeRow>, x: TypeRow, l: string, m: Measure)
    requires Ascending(rows)
    ensures SumFor(Merge(rows, x), l, m) == SumFor(rows, l, m) + (if l == x.name then Amount(x, m) else 0.0)
    ensures Total(Merge(rows, x), m) == Total(rows, m) + Amount(x, m)
  {
    if rows != [] && rows[0].name != x.name && !LabelBefore(x.name, rows[0].name) {
      MergeSums(rows[1..], x, l, m);
      assert ([rows[0]] + Merge(rows[1..], x))[1..] == Merge(rows[1..], x);
    } else if rows != [] && rows[0].name == x.name {
      assert ([TypeRow(x.name, rows[0].count + x.count, rows[0].prop + x.prop)] + rows[1..])[1..] == rows[1..];
    } else if rows != [] {
      assert ([x] + rows)[1..] == rows;
    }
  }

  lemma {:induction false} MergePositive(rows: seq<TypeRow>, x: TypeRow)
    requires Ascending(rows) && Positive(rows) && x.count >= 1
    ensures Positive(Merge(rows, x))
  {
    if rows != [] && rows[0].name != x.name && !LabelBefore(x.name, rows[0].name) {
      assert Positive(rows[1..]);
      MergePositive(rows[1..], x);
    }
  }

  /** Sums the rows per label, in ascending label order. */
  function GroupSum(rows: seq<TypeRow>): (r: seq<TypeRow>)
    ensures Ascending(r)
    ensures Labels(r) == Labels(rows)
  {
    if rows == [] then [] else Merge(GroupSum(rows[1..]), rows[0])
  }

  /** Grouping keeps every label's sums and the table's totals. */
  lemma {:induction false} GroupSumSums(rows: seq<TypeRow>, l: string, m: Measure)
    ensures SumFor(GroupSum(rows), l, m) == SumFor(rows, l, m)
    ensures Total(GroupSum(rows), m) == Total(rows, m)
  {
    if rows != [] {
      GroupSumSums(rows[1..], l, m);
      MergeSums(GroupSum(rows[1..]), rows[0], l, m);
    }
  }

  /** Grouping leaves one row per label, and no empty row when none came in. */
  lemma {:induction false} GroupSumRows(rows: seq<TypeRow>)
    ensures Distinct(GroupSum(rows))
    ensures Positive(rows) ==> Positive(GroupSum(rows))
  {
    AscendingIsDistinct(GroupSum(rows));
    if rows != [] {
      assert Positive(rows) ==> Positive(rows[1..]);
      GroupSumRows(rows[1..]);
      if Positive(rows) {
        MergePositive(GroupSum(rows[1..]), rows[0]);
      }
    }
  }

  // ---------------------------------------------------------------------
  // Step 1 (value_counts and value_counts(normalize=True))
  // ---------------------------------------------------------------------

  /** The records of a type column: a type name, or None for a missing value. */
  type Column = seq<Option<string>>

  /** The number of records of type `t`. */
  function Occ(col: Column, t: string): nat {
    if col == [] then 0 else (if col[0] == Some(t) then 1 else 0) + Occ(col[1..], t)
  }

  /** The number of records that have a type. */
  function NonNull(col: Column): nat {
    if col == [] then 0 else (if col[0].Some? then 1 else 0) + NonNull(col[1..])
  }

  /** The types that occur. */
  function Values(col: Column): set<string> {
    if col == [] then {} else (if col[0].Some? then {col[0].value} else {}) + Values(col[1..])
  }

  /** One row per typed record, with count one; shares are filled in once
      the counts are known. */
  function Contributions(col: Column): seq<TypeRow> {
    if col == [] then []
    else
      var rest := Contributions(col[1..]);
      match col[0]
      case None => rest
      case Some(t) => [TypeRow(t, 1, 0.0)] + rest
  }

  lemma {:induction false} ContributionSums(col: Column, l: string)
    ensures SumFor(Contributions(col), l, Count) == Occ(col, l) as real
  {
    if col != [] {
      ContributionSums(col[1..], l);
      var rest := Contributions(col[1..]);
      if col[0].Some? {
        assert ([TypeRow(col[0].value, 1, 0.0)] + rest)[1..] == rest;
      }
    }
  }

  lemma {:induction false} ContributionTotals(col: Column)
    ensures Total(Contributions(col), Count) == NonNull(col) as real
    ensures Labels(Contributions(col)) == Values(col)
    ensures Positive(Contributions(col))
  {
    if col != [] {
      ContributionTotals(col[1..]);
      var rest := Contributions(col[1..]);
      if col[0].Some? {
        assert ([TypeRow(col[0].value, 1, 0.0)] + rest)[1..] == rest;
      }
    }
  }

  /** `value_counts(normalize=True)`: a count over the total of the counts. */
  function ShareOf(count: nat, total: nat): real {
    if total == 0 then 0.0 else count as real / total as real
  }

  /** Fills in each row's share of `total`. */
  function WithShares(rows: seq<TypeRow>, total: nat): (r: seq<TypeRow>)
    ensures |r| == |rows|
    ensures forall i :: 0 <= i < |rows| ==>
      r[i].name == rows[i].name && r[i].count == rows[i].count && r[i].prop == ShareOf(rows[i].count, total)
  {
    if rows == [] then []
    else
      var r := [TypeRow(rows[0].name, rows[0].count, ShareOf(rows[0].count, total))] + WithShares(rows[1..], total);
      assert forall i :: 1 <= i < |rows| ==> r[i] == WithShares(rows[1..], total)[i - 1];
      r
  }

  /** Filling in the shares keeps the labels and the counts, and the shares
      add up to the total count over `total`. */
  lemma {:induction false} WithSharesKeeps(rows: seq<TypeRow>, total: nat, l: string)
    ensures Labels(WithShares(rows, total)) == Labels(rows)
    ensures Distinct(rows) ==> Distinct(WithShares(rows, total))
    ensures SumFor(WithShares(rows, total), l, Count) == SumFor(rows, l, Count)
    ensures total > 0 ==> Total(WithShares(rows, total), Share) == Total(rows, Count) / total as real
  {
    if rows != [] {
      WithSharesKeeps(rows[1..], total, l);
      var r := WithShares(rows, total);
      assert r[1..] == WithShares(rows[1..], total);
      if total > 0 {
        var t := Total(rows[1..], Count);
        assert rows[0].count as real / total as real + t / total as real
          == (rows[0].count as real + t) / total as real;
      }
    }
  }

  /** The table of lines 47-50: one row per type, with its count and share,
      listed in label order. */
  function TypeCounts(col: Column): (r: seq<TypeRow>)
    ensures Labels(r) == Values(col)
    ensures forall i :: 0 <= i < |r| ==> r[i].prop == ShareOf(r[i].count, NonNull(col))
  {
    var g := GroupSum(Contributions(col));
    ContributionTotals(col);
    WithSharesKeeps(g, NonNull(col), Others);
    WithShares(g, NonNull(col))
  }

  lemma {:induction false} NoTypesNoValues(col: Column)
    requires NonNull(col) == 0
    ensures Values(col) == {}
  {
    if col != [] {
      NoTypesNoValues(col[1..]);
    }
  }

  /** Every type that occurs has exactly one row, and there are no others. */
  lemma TypeCountsLabels(col: Column)
    ensures Distinct(TypeCounts(col)) && Labels(TypeCounts(col)) == Values(col)
    ensures Positive(TypeCounts(col))
    ensures NonNull(col) == 0 ==> TypeCounts(col) == []
  {
    var g := GroupSum(Contributions(col));
    var tc := TypeCounts(col);
    ContributionTotals(col);
    GroupSumRows(Contributions(col));
    WithSharesKeeps(g, NonNull(col), Others);
    if NonNull(col) == 0 {
      NoTypesNoValues(col);
    }
  }

  /** A type's row holds the number of its records, and that number over
      the number of typed records as its share. */
  lemma TypeCountsRow(col: Column, i: nat)
    requires i < |TypeCounts(col)|
    ensures NonNull(col) > 0
    ensures TypeCounts(col)[i].count == Occ(col, TypeCounts(col)[i].name) && TypeCounts(col)[i].count >= 1
    ensures TypeCounts(col)[i].prop == TypeCounts(col)[i].count as real / NonNull(col) as real
  {
    var c := Contributions(col);
    var g := GroupSum(c);
    TypeCountsLabels(col);
    GroupSumRows(c);
    RowAmount(g, i, Count);
    GroupSumSums(c, g[i].name, Count);
    ContributionSums(col, g[i].name);
  }

  lemma TypeCountsShares(col: Column)
    ensures forall i :: 0 <= i < |TypeCounts(col)| ==>
      NonNull(col) > 0 && TypeCounts(col)[i].prop == TypeCounts(col)[i].count as real / NonNull(col) as real
  {
    forall i | 0 <= i < |TypeCounts(col)|
      ensures NonNull(col) > 0 && TypeCounts(col)[i].prop == TypeCounts(col)[i].count as real / NonNull(col) as real
    {
      TypeCountsRow(col, i);
    }
  }

  /** The counts add up to the typed records, and the shares to one. */
  lemma TypeCountsTotals(col: Column)
    ensures Total(TypeCounts(col), Count) == NonNull(col) as real
    ensures NonNull(col) > 0 ==> Total(TypeCounts(col), Share) == 1.0
  {
    var c := Contributions(col);
    var g := GroupSum(c);
    assert Total(g, Count) == NonNull(col) as real by {
      ContributionTotals(col);
      GroupSumSums(c, Others, Count);
    }
    WithSharesTotal(g, NonNull(col));
    if NonNull(col) > 0 {
      WithSharesKeeps(g, NonNull(col), Others);
      WholeShare(Total(g, Count), NonNull(col) as real);
    }
  }

  lemma WholeShare(t: real, n: real)
    requires n > 0.0 && t == n
    ensures t / n == 1.0
  {
  }

  lemma {:induction false} WithSharesTotal(rows: seq<TypeRow>, total: nat)
    ensures Total(WithShares(rows, total), Count) == Total(rows, Count)
  {
    if rows != [] {
      WithSharesTotal(rows[1..], total);
      assert WithShares(rows, total)[1..] == WithShares(rows[1..], total);
    }
  }

  /** A share below the cutoff is a count below one hundredth of the total. */
  lemma ShareBelowCutoff(count: nat, total: nat, prop: real)
    requires total > 0 && prop == count as real / total as real
    ensures prop < Cutoff <==> count * 100 < total
  {
    var t := total as real;
    assert prop * t == count as real;
    ScaleStrict(prop, Cutoff, t);
  }

  lemma ScaleStrict(a: real, b: real, t: real)
    requires t > 0.0
    ensures a < b <==> a * t < b * t
  {
  }

  // ---------------------------------------------------------------------
  // Step 2 (np.where, lines 52-54): relabelling the rare types
  // ---------------------------------------------------------------------

  /** `np.where(prop < 0.01, 'Outras', index)` for one row: the row is
      labelled "Outras" exactly when its share is below the cutoff or it is
      already so called; otherwise it keeps its label. The count and the
      share are never touched. */
  function RelabelRow(x: TypeRow): (r: TypeRow)
    ensures r.name == Others <==> x.prop < Cutoff || x.name == Others
    ensures r.name != Others ==> r.name == x.name && x.prop >= Cutoff
    ensures r.count == x.count && r.prop == x.prop
  {
    TypeRow(if x.prop < Cutoff then Others else x.name, x.count, x.prop)
  }

  function Relabel(rows: seq<TypeRow>): (r: seq<TypeRow>)
    ensures |r| == |rows| && forall i :: 0 <= i < |rows| ==> r[i] == RelabelRow(rows[i])
  {
    if rows == [] then []
    else
      var r := [RelabelRow(rows[0])] + Relabel(rows[1..]);
      assert forall i :: 1 <= i < |rows| ==> r[i] == Relabel(rows[1..])[i - 1];
      r
  }

  /** A type's row is relabelled "Outras" exactly when its count is below one
      hundredth of the typed records (or it is already called so); every
      other row keeps its label, and no row changes its count or share. */
  lemma RelabelIff(col: Column, i: nat)
    requires i < |TypeCounts(col)|
    ensures Relabel(TypeCounts(col))[i].name == Others
      <==> TypeCounts(col)[i].count * 100 < NonNull(col) || TypeCounts(col)[i].name == Others
    ensures Relabel(TypeCounts(col))[i].name != Others ==>
      Relabel(TypeCounts(col))[i].name == TypeCounts(col)[i].name
    ensures Relabel(TypeCounts(col))[i].count == TypeCounts(col)[i].count
    ensures Relabel(TypeCounts(col))[i].prop == TypeCounts(col)[i].prop
  {
    var tc := TypeCounts(col);
    TypeCountsRow(col, i);
    ShareBelowCutoff(tc[i].count, NonNull(col), tc[i].prop);
  }

  /** Relabelling brings in no label other than "Outras". */
  lemma {:induction false} RelabelLabels(rows: seq<TypeRow>)
    ensures Labels(Relabel(rows)) <= Labels(rows) + {Others}
  {
    if rows != [] {
      RelabelLabels(rows[1..]);
      assert Relabel(rows)[1..] == Relabel(rows[1..]);
    }
  }

  /** The rows that keep their label. */
  function Kept(rows: seq<TypeRow>): (r: seq<TypeRow>)
    ensures forall i :: 0 <= i < |r| ==> r[i] in rows && r[i].prop >= Cutoff
    ensures Labels(r) <= Labels(rows)
  {
    if rows == [] then []
    else
      var rest := Kept(rows[1..]);
      if rows[0].prop >= Cutoff then
        var r := [rows[0]] + rest;
        assert forall i :: 1 <= i < |r| ==> r[i] == rest[i - 1];
        r
      else rest
  }

  lemma {:induction false} KeptDistinct(rows: seq<TypeRow>)
    requires Distinct(rows)
    ensures Distinct(Kept(rows))
  {
    if rows != [] {
      KeptDistinct(rows[1..]);
      if rows[0].prop >= Cutoff {
        assert ([rows[0]] + Kept(rows[1..]))[1..] == Kept(rows[1..]);
      }
    }
  }

  /** The sum of measure `m` over the rows that are relabelled "Outras". */
  function FoldedSum(rows: seq<TypeRow>, m: Measure): real {
    if rows == [] then 0.0
    else (if RelabelRow(rows[0]).name == Others then Amount(rows[0], m) else 0.0) + FoldedSum(rows[1..], m)
  }

  /** The records of the types whose count is below one hundredth of
      `total`, together with those of a type literally called "Outras". */
  function FoldedCount(rows: seq<TypeRow>, total: nat): nat {
    if rows == [] then 0
    else
      var here := if rows[0].count * 100 < total || rows[0].name == Others then rows[0].count else 0;
      here + FoldedCount(rows[1..], total)
  }

  /** After relabelling, "Outras" collects the folded rows and every other
      label collects only the rows that kept it. */
  lemma {:induction false} RelabelSums(rows: seq<TypeRow>, l: string, m: Measure)
    ensures SumFor(Relabel(rows), Others, m) == FoldedSum(rows, m)
    ensures l != Others ==> SumFor(Relabel(rows), l, m) == SumFor(Kept(rows), l, m)
    ensures Total(Relabel(rows), m) == Total(rows, m)
  {
    if rows != [] {
      RelabelSums(rows[1..], l, m);
      assert Relabel(rows)[1..] == Relabel(rows[1..]);
      if rows[0].prop >= Cutoff {
        assert ([rows[0]] + Kept(rows[1..]))[1..] == Kept(rows[1..]);
      }
    }
  }

  lemma {:induction false} FoldedSumIsFoldedCount(rows: seq<TypeRow>, total: nat)
    requires total > 0
    requires forall i :: 0 <= i < |rows| ==> rows[i].prop == rows[i].count as real / total as real
    ensures FoldedSum(rows, Count) == FoldedCount(rows, total) as real
  {
    if rows != [] {
      ShareBelowCutoff(rows[0].count, total, rows[0].prop);
      assert forall i :: 1 <= i < |rows| ==> rows[1..][i - 1] == rows[i];
      FoldedSumIsFoldedCount(rows[1..], total);
    }
  }

  // ---------------------------------------------------------------------
  // Step 3 (groupby(index).sum(), line 56)
  // ---------------------------------------------------------------------

  /** The relabelled table summed per label: one row per label, in label
      order, each label a type that occurs or "Outras". */
  function Regrouped(col: Column): (r: seq<TypeRow>)
    ensures Ascending(r) && Distinct(r)
    ensures Labels(r) <= Values(col) + {Others}
  {
    var rows := Relabel(TypeCounts(col));
    RelabelLabels(TypeCounts(col));
    AscendingIsDistinct(GroupSum(rows));
    GroupSum(rows)
  }

  /** After regrouping every label has one row, the counts still add up to
      the typed records, and "Outras" holds the records of every folded type. */
  lemma RegroupedTotals(col: Column)
    ensures Distinct(Regrouped(col)) && Positive(Regrouped(col))
    ensures Total(Regrouped(col), Count) == NonNull(col) as real
    ensures SumFor(Regrouped(col), Others, Count) == FoldedCount(TypeCounts(col), NonNull(col)) as real
  {
    var tc := TypeCounts(col);
    var r := Relabel(tc);
    TypeCountsLabels(col);
    TypeCountsTotals(col);
    RelabelSums(tc, Others, Count);
    GroupSumSums(r, Others, Count);
    GroupSumRows(r);
    if NonNull(col) > 0 {
      TypeCountsShares(col);
      FoldedSumIsFoldedCount(tc, NonNull(col));
    }
  }

  /** A label whose rows add up to a positive count occurs in the table. */
  lemma {:induction false} CountedLabelOccurs(rows: seq<TypeRow>, l: string)
    requires SumFor(rows, l, Count) > 0.0
    ensures l in Labels(rows)
  {
    if rows[0].name != l {
      CountedLabelOccurs(rows[1..], l);
    }
  }

  /** A label other than "Outras" left after regrouping is a type whose
      count is its number of records and at least one hundredth of the typed
      records, with a share of at least the cutoff. */
  lemma KeptLabel(col: Column, i: nat)
    requires i < |Regrouped(col)| && Regrouped(col)[i].name != Others
    ensures Regrouped(col)[i].name in Values(col)
    ensures Regrouped(col)[i].count == Occ(col, Regrouped(col)[i].name)
    ensures Regrouped(col)[i].count * 100 >= NonNull(col)
    ensures Regrouped(col)[i].prop >= Cutoff
  {
    var tc := TypeCounts(col);
    var r := Relabel(tc);
    var g := Regrouped(col);
    var l := g[i].name;
    var k := Kept(tc);
    assert SumFor(k, l, Count) == g[i].count as real && SumFor(k, l, Share) == g[i].prop && g[i].count >= 1 by {
      RegroupedTotals(col);
      RowAmount(g, i, Count);
      RowAmount(g, i, Share);
      GroupSumSums(r, l, Count);
      GroupSumSums(r, l, Share);
      RelabelSums(tc, l, Count);
      RelabelSums(tc, l, Share);
    }
    CountedLabelOccurs(k, l);
    LabelHasRow(k, l);
    var j :| 0 <= j < |k| && k[j].name == l;
    assert k[j] == g[i] by {
      TypeCountsLabels(col);
      KeptDistinct(tc);
      RowAmount(k, j, Count);
      RowAmount(k, j, Share);
    }
    var t :| 0 <= t < |tc| && tc[t] == k[j];
    TypeCountsRow(col, t);
    TypeCountsLabels(col);
    LabelAt(tc, t);
    ShareBelowCutoff(tc[t].count, NonNull(col), tc[t].prop);
  }

  // ---------------------------------------------------------------------
  // Step 4 (sort_values('count', ascending=True), line 58)
  // ---------------------------------------------------------------------

  predicate SortedByCount(rows: seq<TypeRow>) {
    forall i, j :: 0 <= i < j < |rows| ==> rows[i].count <= rows[j].count
  }

  /** Puts `x` into a table sorted by count, before the rows of equal count. */
  function InsertByCount(sorted: seq<TypeRow>, x: TypeRow): (r: seq<TypeRow>)
    requires SortedByCount(sorted)
    ensures SortedByCount(r)
    ensures |r| == |sorted| + 1
    ensures forall k :: 0 <= k < |r| ==> r[k] == x || r[k] in sorted
  {
    if sorted == [] then [x]
    else if x.count <= sorted[0].count then [x] + sorted
    else
      var rest := InsertByCount(sorted[1..], x);
      var r := [sorted[0]] + rest;
      assert forall k :: 1 <= k < |r| ==> r[k] == rest[k - 1];
      r
  }

  /** Insertion adds `x` and keeps everything else. */
  lemma {:induction false} InsertContents(sorted: seq<TypeRow>, x: TypeRow)
    requires SortedByCount(sorted)
    ensures multiset(InsertByCount(sorted, x)) == multiset(sorted) + multiset{x}
  {
    if sorted != [] && x.count > sorted[0].count {
      var rest := InsertByCount(sorted[1..], x);
      InsertContents(sorted[1..], x);
      assert InsertByCount(sorted, x) == [sorted[0]] + rest;
      assert sorted == [sorted[0]] + sorted[1..];
    }
  }

  lemma {:induction false} InsertLabels(sorted: seq<TypeRow>, x: TypeRow)
    requires SortedByCount(sorted)
    ensures Labels(InsertByCount(sorted, x)) == Labels(sorted) + {x.name}
  {
    if sorted == [] {
      assert [x][1..] == [];
    } else if x.count <= sorted[0].count {
      assert ([x] + sorted)[1..] == sorted;
    } else {
      var rest := InsertByCount(sorted[1..], x);
      InsertLabels(sorted[1..], x);
      assert ([sorted[0]] + rest)[1..] == rest;
    }
  }

  /** Inserting a new label keeps the labels distinct. */
  lemma {:induction false} InsertDistinct(sorted: seq<TypeRow>, x: TypeRow)
    requires SortedByCount(sorted) && Distinct(sorted) && x.name !in Labels(sorted)
    ensures Distinct(InsertByCount(sorted, x))
  {
    if sorted == [] {
      assert [x][1..] == [];
    } else if x.count <= sorted[0].count {
      assert ([x] + sorted)[1..] == sorted;
    } else {
      var rest := InsertByCount(sorted[1..], x);
      InsertDistinct(sorted[1..], x);
      InsertLabels(sorted[1..], x);
      assert ([sorted[0]] + rest)[1..] == rest;
    }
  }

  /** A stable insertion sort by ascending count. */
  function SortByCount(rows: seq<TypeRow>): (r: seq<TypeRow>)
    ensures SortedByCount(r)
  {
    if rows == [] then [] else InsertByCount(SortByCount(rows[1..]), rows[0])
  }

  /** Sorting only reorders the rows. */
  lemma {:induction false} SortContents(rows: seq<TypeRow>)
    ensures multiset(SortByCount(rows)) == multiset(rows)
    ensures Labels(SortByCount(rows)) == Labels(rows)
    ensures Distinct(rows) ==> Distinct(SortByCount(rows))
  {
    if rows != [] {
      SortContents(rows[1..]);
      InsertContents(SortByCount(rows[1..]), rows[0]);
      InsertLabels(SortByCount(rows[1..]), rows[0]);
      if Distinct(rows) {
        InsertDistinct(SortByCount(rows[1..]), rows[0]);
      }
      assert rows == [rows[0]] + rows[1..];
    }
  }

  /** The whole block: the final `proposicao_tipo`. */
  function FoldCategories(col: Column): (r: seq<TypeRow>)
    ensures SortedByCount(r)
    ensures multiset(r) == multiset(Regrouped(col))
    ensures Labels(r) == Labels(Regrouped(col)) && Distinct(r)
  {
    SortContents(Regrouped(col));
    SortByCount(Regrouped(col))
  }

  /** The final table is sorted by count, is a reordering of the regrouped
      table, has one row per label, and its rows are either the "Outras" row
      with the records of all folded types or a type with its own count of
      at least one hundredth of the typed records. */
  lemma FoldCategoriesResult(col: Column)
    ensures SortedByCount(FoldCategories(col))
    ensures multiset(FoldCategories(col)) == multiset(Regrouped(col))
    ensures forall i, j :: 0 <= i < j < |FoldCategories(col)| ==>
      FoldCategories(col)[i].name != FoldCategories(col)[j].name
    ensures forall i :: 0 <= i < |FoldCategories(col)| && FoldCategories(col)[i].name == Others ==>
      FoldCategories(col)[i].count == FoldedCount(TypeCounts(col), NonNull(col))
    ensures forall i :: 0 <= i < |FoldCategories(col)| && FoldCategories(col)[i].name != Others ==>
      && FoldCategories(col)[i].count == Occ(col, FoldCategories(col)[i].name)
      && FoldCategories(col)[i].count * 100 >= NonNull(col)
      && FoldCategories(col)[i].prop >= Cutoff
  {
    var f := FoldCategories(col);
    RegroupedTotals(col);
    SortContents(Regrouped(col));
    DistinctPositions(f);
    forall i | 0 <= i < |f|
      ensures f[i].name == Others ==> f[i].count == FoldedCount(TypeCounts(col), NonNull(col))
      ensures f[i].name != Others ==>
        && f[i].count == Occ(col, f[i].name)
        && f[i].count * 100 >= NonNull(col)
        && f[i].prop >= Cutoff
    {
      FoldedRow(col, i);
    }
  }

  /** One row of the folded table, traced back to its row after regrouping. */
  lemma FoldedRow(col: Column, i: nat)
    requires i < |FoldCategories(col)|
    ensures var f := FoldCategories(col);
      f[i].name == Others ==> f[i].count == FoldedCount(TypeCounts(col), NonNull(col))
    ensures var f := FoldCategories(col);
      f[i].name != Others ==>
        && f[i].count == Occ(col, f[i].name)
        && f[i].count * 100 >= NonNull(col)
        && f[i].prop >= Cutoff
  {
    var g := Regrouped(col);
    var f := FoldCategories(col);
    RegroupedTotals(col);
    SortContents(g);
    assert f[i] in multiset(g);
    var j :| 0 <= j < |g| && g[j] == f[i];
    if f[i].name == Others {
      RowAmount(g, j, Count);
    } else {
      KeptLabel(col, j);
    }
  }
}
