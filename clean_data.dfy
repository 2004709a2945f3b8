/** Joining the study data with the census boundary layer: the table's ids are
    repaired by cutting them at the first `.`, then every boundary feature is
    left-joined with the table rows whose id equals its GEOID. */
module CleanData {
  import opened Common
  import opened Frames

  const DefaultGeoidColumn := "GEOID"
  const DefaultDataIdColumn := "ID"

  // ---------------------------------------------------------------------------
  // Identifier normalisation: `str.split(".")[0]`

  /** Python's `s.split(sep)` for a one-character separator: the pieces between
      separators, an empty piece where two separators meet or at either end. */
  function Split(s: string, sep: char): (parts: seq<string>)
    ensures |parts| >= 1
    decreases |s|
  {
    if s == [] then [""]
    else
      var rest := Split(s[1..], sep);
      if s[0] == sep then [""] + rest
      else [[s[0]] + rest[0]] + rest[1..]
  }

  /** `sep.join(parts)`. */
  function Join(parts: seq<string>, sep: char): string
    requires |parts| >= 1
  {
    if |parts| == 1 then parts[0] else parts[0] + [sep] + Join(parts[1..], sep)
  }

  /** Joining the pieces back with the separator gives the original string. */
  lemma {:induction false} JoinSplit(s: string, sep: char)
    ensures Join(Split(s, sep), sep) == s
    decreases |s|
  {
    if s != [] {
      var rest := Split(s[1..], sep);
      JoinSplit(s[1..], sep);
      if s[0] == sep {
        assert ([""] + rest)[1..] == rest;
      } else {
        var parts := [[s[0]] + rest[0]] + rest[1..];
        if |rest| == 1 {
          assert parts == [[s[0]] + rest[0]];
        } else {
          assert parts[1..] == rest[1..];
          assert Join(rest, sep) == rest[0] + [sep] + Join(rest[1..], sep);
        }
      }
    }
  }

  /** No piece contains the separator. */
  lemma {:induction false} SplitPiecesHaveNoSeparator(s: string, sep: char)
    ensures forall p :: p in Split(s, sep) ==> sep !in p
    decreases |s|
  {
    if s != [] {
      SplitPiecesHaveNoSeparator(s[1..], sep);
      var rest := Split(s[1..], sep);
      if s[0] != sep {
        assert rest[0] in rest;
        assert forall p :: p in rest[1..] ==> p in rest;
      }
    }
  }

  /** The repaired form of one table id (`"110010074011.0"` becomes
      `"110010074011"`). */
  function NormalizeId(s: string): (r: string)
    ensures IsPrefixBeforeFirstDot(r, s)
  {
    FirstPieceIsPrefixBeforeSeparator(s, '.');
    Split(s, '.')[0]
  }

  /** The first piece of a split is the prefix before the first separator: it
      holds no separator, and it is either all of `s` or followed in `s` by the
      separator. */
  lemma {:induction false} FirstPieceIsPrefixBeforeSeparator(s: string, sep: char)
    ensures var r := Split(s, sep)[0];
      && sep !in r && r <= s && (|r| < |s| ==> s[|r|] == sep)
    decreases |s|
  {
    if s != [] && s[0] != sep {
      FirstPieceIsPrefixBeforeSeparator(s[1..], sep);
    }
  }

  /** The prefix of `s` before its first `.` (all of `s` when it has none). */
  predicate IsPrefixBeforeFirstDot(r: string, s: string)
  {
    '.' !in r && r <= s && (|r| < |s| ==> s[|r|] == '.')
  }

  /** The normalised id is exactly the prefix before the first `.`: a string
      is that prefix if and only if it is the normalised id. */
  lemma NormalizeIdIsPrefixBeforeFirstDot(s: string, t: string)
    ensures IsPrefixBeforeFirstDot(t, s) <==> t == NormalizeId(s)
  {
    var r := NormalizeId(s);
    if IsPrefixBeforeFirstDot(t, s) {
      assert |t| >= |r|;
      assert |r| >= |t|;
      assert t == s[..|t|] == r;
    }
  }

  /** A dot-free id is left as it is; so normalising twice is normalising once,
      and a normalised id never holds a `.`. */
  lemma NormalizeIdFixesDotFree(s: string)
    ensures '.' !in s ==> NormalizeId(s) == s
    ensures '.' !in NormalizeId(s)
    ensures NormalizeId(NormalizeId(s)) == NormalizeId(s)
  {
    NormalizeIdIsPrefixBeforeFirstDot(s, s);
    NormalizeIdIsPrefixBeforeFirstDot(NormalizeId(s), NormalizeId(s));
  }

  /** An integer id that was read as a float loses its `.0` again. */
  lemma NormalizeIdDropsFloatSuffix(t: string)
    requires '.' !in t
    ensures NormalizeId(t + ".0") == t
  {
    var s := t + ".0";
    assert t == s[..|t|] && s[|t|] == '.';
    NormalizeIdIsPrefixBeforeFirstDot(s, t);
  }

  /** Line 56 applied to every row: the id cell of each row is normalised, and
      nothing else changes. */
  function NormalizeColumn(rows: seq<Row>, column: string): (r: seq<Row>)
    ensures |r| == |rows|
    ensures forall i :: 0 <= i < |rows| ==> r[i].Keys == rows[i].Keys
    ensures forall i, c :: 0 <= i < |rows| && c in rows[i] && c != column ==> r[i][c] == rows[i][c]
  {
    seq(|rows|, i requires 0 <= i < |rows| =>
      if column in rows[i] then rows[i][column := NormalizeId(rows[i][column])] else rows[i])
  }

  /** After line 56 every id cell is the prefix of the old one before its
      first `.`, so no id holds a `.` any more, and repeating the step changes
      nothing. */
  lemma NormalizeColumnRepairsIds(rows: seq<Row>, column: string)
    ensures var r := NormalizeColumn(rows, column);
      forall i :: 0 <= i < |rows| && column in rows[i] ==>
        IsPrefixBeforeFirstDot(r[i][column], rows[i][column]) && '.' !in r[i][column]
    ensures NormalizeColumn(NormalizeColumn(rows, column), column) == NormalizeColumn(rows, column)
  {
    var r := NormalizeColumn(rows, column);
    forall i | 0 <= i < |rows| && column in rows[i]
      ensures IsPrefixBeforeFirstDot(r[i][column], rows[i][column])
    {
      NormalizeIdIsPrefixBeforeFirstDot(rows[i][column], rows[i][column]);
    }
    var rr := NormalizeColumn(r, column);
    forall i | 0 <= i < |rows| ensures rr[i] == r[i] {
      if column in rows[i] {
        NormalizeIdFixesDotFree(rows[i][column]);
      }
    }
  }

  // ---------------------------------------------------------------------------
  // The boundary layer and the left join

  /** One boundary feature: its attribute cells and its geometry, which the
      join carries along untouched. */
  datatype Feature<G> = Feature(attrs: Row, geometry: G)

  /** The boundary layer read from the shapefile. */
  datatype Layer<G> = Layer(columns: set<string>, features: seq<Feature<G>>)

  /** Every feature has a cell for exactly the layer's columns. */
  ghost predicate ValidLayer<G>(layer: Layer<G>)
  {
    forall f :: f in layer.features ==> f.attrs.Keys == layer.columns
  }

  /** One row of the merged frame: a boundary feature and the table row joined
      to it, or `None` when no table row matched (all table columns null). */
  datatype Merged<G> = Merged(feature: Feature<G>, joined: Option<Row>)

  /** Every feature has a cell in `column`. */
  ghost predicate HasColumn<G>(features: seq<Feature<G>>, column: string)
  {
    forall f :: f in features ==> column in f.attrs
  }

  /** The ids the table offers for joining. */
  function TableKeys(rows: seq<Row>, column: string): set<string>
  {
    set r | r in rows && column in r :: r[column]
  }

  /** The table rows whose id equals `key`, in table order. */
  function Matches(rows: seq<Row>, column: string, key: string): seq<Row>
  {
    Filter(rows, ColumnEquals(column, key))
  }

  /** The number of table rows whose id equals `key`. */
  function MatchCount(rows: seq<Row>, column: string, key: string): nat
  {
    CountWhere(rows, ColumnEquals(column, key))
  }

  /** A key has matches exactly when the table offers it. */
  lemma MatchesEmptyIffKeyAbsent(rows: seq<Row>, column: string, key: string)
    ensures Matches(rows, column, key) == [] <==> key !in TableKeys(rows, column)
  {
    var matches := Matches(rows, column, key);
    if key in TableKeys(rows, column) {
      var r :| r in rows && column in r && r[column] == key;
      var i :| 0 <= i < |rows| && rows[i] == r;
      FilterKeepsEveryMatch(rows, ColumnEquals(column, key), i);
    }
    if matches != [] {
      assert matches[0] in matches;
      assert matches[0] in rows && column in matches[0] && matches[0][column] == key;
    }
  }

  /** A feature joined with each of the given table rows, in their order. */
  function JoinEach<G>(f: Feature<G>, matches: seq<Row>): (r: seq<Merged<G>>)
    ensures |r| == |matches|
    ensures forall j :: 0 <= j < |r| ==> r[j] == Merged(f, Some(matches[j]))
    ensures forall t :: t in matches ==> Merged(f, Some(t)) in r
    ensures forall m :: m in r ==> m.feature == f && m.joined.Some? && m.joined.value in matches
  {
    seq(|matches|, j requires 0 <= j < |matches| => Merged(f, Some(matches[j])))
  }

  /** The merged rows of one feature: one per matching table row, in table
      order, or a single row with null table columns when nothing matches. */
  function JoinOne<G>(f: Feature<G>, geoidColumn: string, rows: seq<Row>, idColumn: string): (r: seq<Merged<G>>)
    requires geoidColumn in f.attrs
    ensures |r| >= 1 && r[0].feature == f
  {
    var matches := Matches(rows, idColumn, f.attrs[geoidColumn]);
    if matches == [] then [Merged(f, None)]
    else JoinEach(f, matches)
  }

  /** Every merged row of a feature carries the feature; it holds table
      columns exactly when the feature's key is among the table's ids, and then
      a table row whose id equals the key as text. */
  lemma JoinOneRows<G>(f: Feature<G>, geoidColumn: string, rows: seq<Row>, idColumn: string)
    requires geoidColumn in f.attrs
    ensures var r := JoinOne(f, geoidColumn, rows, idColumn);
      && (forall m :: m in r ==> m.feature == f)
      && (forall m :: m in r ==> (m.joined.Some? <==> f.attrs[geoidColumn] in TableKeys(rows, idColumn)))
      && (forall m :: m in r && m.joined.Some? ==>
            && m.joined.value in rows
            && idColumn in m.joined.value
            && m.joined.value[idColumn] == f.attrs[geoidColumn])
  {
    var key := f.attrs[geoidColumn];
    var matches := Matches(rows, idColumn, key);
    MatchesEmptyIffKeyAbsent(rows, idColumn, key);
    assert forall t :: t in matches ==> t in rows && ColumnEquals(idColumn, key)(t);
  }

  /** Every table row with the feature's key is joined to the feature, so two
      matching rows give two merged rows, one for each. */
  lemma JoinOneJoinsEveryMatch<G>(f: Feature<G>, geoidColumn: string, rows: seq<Row>, idColumn: string)
    requires geoidColumn in f.attrs
    ensures forall t :: t in rows && idColumn in t && t[idColumn] == f.attrs[geoidColumn] ==>
      Merged(f, Some(t)) in JoinOne(f, geoidColumn, rows, idColumn)
  {
    var key := f.attrs[geoidColumn];
    FilterKeepsEveryMember(rows, ColumnEquals(idColumn, key));
    forall t | t in rows && idColumn in t && t[idColumn] == key
      ensures Merged(f, Some(t)) in JoinOne(f, geoidColumn, rows, idColumn)
    {
      assert t in Matches(rows, idColumn, key);
    }
  }

  /** `tracts.merge(data, left_on=geoid_column, right_on=data_id_column,
      how="left")`: the features in layer order, each followed by its merged
      rows. */
  function LeftJoin<G>(features: seq<Feature<G>>, geoidColumn: string, rows: seq<Row>, idColumn: string): (r: seq<Merged<G>>)
    requires HasColumn(features, geoidColumn)
    ensures |r| >= |features|
  {
    if features == [] then []
    else JoinOne(features[0], geoidColumn, rows, idColumn) + LeftJoin(features[1..], geoidColumn, rows, idColumn)
  }

  /** Every merged row comes from a feature; it holds a table row exactly when
      the feature's key is among the table's ids, and then a table row whose id
      equals that key as text. */
  lemma {:induction false} LeftJoinRows<G>(features: seq<Feature<G>>, geoidColumn: string, rows: seq<Row>, idColumn: string)
    requires HasColumn(features, geoidColumn)
    ensures var r := LeftJoin(features, geoidColumn, rows, idColumn);
      && (forall m :: m in r ==> m.feature in features)
      && (forall m :: m in r ==>
            (m.joined.Some? <==> m.feature.attrs[geoidColumn] in TableKeys(rows, idColumn)))
      && (forall m :: m in r && m.joined.Some? ==>
            && m.joined.value in rows
            && idColumn in m.joined.value
            && m.joined.value[idColumn] == m.feature.attrs[geoidColumn])
  {
    if features != [] {
      assert features[0] in features;
      HasColumnTail(features, geoidColumn);
      LeftJoinRows(features[1..], geoidColumn, rows, idColumn);
      JoinOneRows(features[0], geoidColumn, rows, idColumn);
      assert forall f :: f in features[1..] ==> f in features;
    }
  }

  /** `merged[data_id_column].notna().sum()`: the merged rows that hold a
      table row (a joined id is never null, since ids were stringified). */
  function MatchedCount<G>(merged: seq<Merged<G>>): (n: nat)
    ensures n <= |merged|
    ensures n == 0 <==> forall i :: 0 <= i < |merged| ==> merged[i].joined.None?
  {
    CountWhere(merged, (m: Merged<G>) => m.joined.Some?)
  }

  /** How many merged rows a left join yields: for each feature, the number of
      table rows with its key, or one when there are none. */
  function FanOut<G>(features: seq<Feature<G>>, geoidColumn: string, rows: seq<Row>, idColumn: string): nat
    requires HasColumn(features, geoidColumn)
  {
    if features == [] then 0
    else
      var n := MatchCount(rows, idColumn, features[0].attrs[geoidColumn]);
      (if n == 0 then 1 else n) + FanOut(features[1..], geoidColumn, rows, idColumn)
  }

  /** The number of table rows joined in total: the sum over features of the
      table rows with their key. */
  function MatchTotal<G>(features: seq<Feature<G>>, geoidColumn: string, rows: seq<Row>, idColumn: string): nat
    requires HasColumn(features, geoidColumn)
  {
    if features == [] then 0
    else MatchCount(rows, idColumn, features[0].attrs[geoidColumn]) + MatchTotal(features[1..], geoidColumn, rows, idColumn)
  }

  lemma JoinOneSize<G>(f: Feature<G>, geoidColumn: string, rows: seq<Row>, idColumn: string)
    requires geoidColumn in f.attrs
    ensures var n := MatchCount(rows, idColumn, f.attrs[geoidColumn]);
      && |JoinOne(f, geoidColumn, rows, idColumn)| == (if n == 0 then 1 else n)
      && MatchedCount(JoinOne(f, geoidColumn, rows, idColumn)) == n
  {
    var key := f.attrs[geoidColumn];
    var out := JoinOne(f, geoidColumn, rows, idColumn);
    FilterCount(rows, ColumnEquals(idColumn, key));
    CountWhereCongruent(out, (m: Merged<G>) => m.joined.Some?,
                        (m: Merged<G>) => key in TableKeys(rows, idColumn));
    ConstantCount(out, (m: Merged<G>) => key in TableKeys(rows, idColumn));
    MatchesEmptyIffKeyAbsent(rows, idColumn, key);
  }

  lemma HasColumnAppend<G>(a: seq<Feature<G>>, b: seq<Feature<G>>, column: string)
    requires HasColumn(a, column) && HasColumn(b, column)
    ensures HasColumn(a + b, column)
  {
  }

  lemma HasColumnTail<G>(features: seq<Feature<G>>, column: string)
    requires features != [] && HasColumn(features, column)
    ensures HasColumn(features[1..], column)
  {
    assert forall f :: f in features[1..] ==> f in features;
  }

  /** Joining two runs of features one after the other gives their merged rows
      one after the other. */
  lemma {:induction false} LeftJoinAppend<G>(a: seq<Feature<G>>, b: seq<Feature<G>>, geoidColumn: string, rows: seq<Row>, idColumn: string)
    requires HasColumn(a, geoidColumn) && HasColumn(b, geoidColumn) && HasColumn(a + b, geoidColumn)
    ensures LeftJoin(a + b, geoidColumn, rows, idColumn) ==
      LeftJoin(a, geoidColumn, rows, idColumn) + LeftJoin(b, geoidColumn, rows, idColumn)
  {
    if a == [] {
      assert a + b == b;
    } else {
      var tail := a[1..];
      AppendHeadTail(a, b);
      HasColumnTail(a, geoidColumn);
      HasColumnAppend(tail, b, geoidColumn);
      LeftJoinAppend(tail, b, geoidColumn, rows, idColumn);
      AppendAssociative(JoinOne(a[0], geoidColumn, rows, idColumn),
                        LeftJoin(tail, geoidColumn, rows, idColumn), LeftJoin(b, geoidColumn, rows, idColumn));
    }
  }

  /** The merged frame has one row per feature with no match and one row per
      table row joined to a feature; `matched_count` counts the joined table
      rows and never exceeds the merged length. */
  lemma {:induction false} LeftJoinCardinality<G>(features: seq<Feature<G>>, geoidColumn: string, rows: seq<Row>, idColumn: string)
    requires HasColumn(features, geoidColumn)
    ensures |LeftJoin(features, geoidColumn, rows, idColumn)| == FanOut(features, geoidColumn, rows, idColumn)
    ensures MatchedCount(LeftJoin(features, geoidColumn, rows, idColumn)) == MatchTotal(features, geoidColumn, rows, idColumn)
    ensures MatchTotal(features, geoidColumn, rows, idColumn) <= FanOut(features, geoidColumn, rows, idColumn)
  {
    if features != [] {
      assert features[0] in features;
      HasColumnTail(features, geoidColumn);
      JoinOneSize(features[0], geoidColumn, rows, idColumn);
      LeftJoinCardinality(features[1..], geoidColumn, rows, idColumn);
      CountWhereAppend(JoinOne(features[0], geoidColumn, rows, idColumn),
                       LeftJoin(features[1..], geoidColumn, rows, idColumn),
                       (m: Merged<G>) => m.joined.Some?);
    }
  }

  /** The merged frame has as many rows as the layer exactly when no feature's
      key matches more than one table row. */
  lemma {:induction false} JoinKeepsFeatureCountIffKeysUnique<G>(features: seq<Feature<G>>, geoidColumn: string, rows: seq<Row>, idColumn: string)
    requires HasColumn(features, geoidColumn)
    ensures |LeftJoin(features, geoidColumn, rows, idColumn)| == |features| <==>
      forall i :: 0 <= i < |features| ==> MatchCount(rows, idColumn, features[i].attrs[geoidColumn]) <= 1
  {
    LeftJoinCardinality(features, geoidColumn, rows, idColumn);
    FanOutAtLeastOne(features, geoidColumn, rows, idColumn);
  }

  lemma {:induction false} FanOutAtLeastOne<G>(features: seq<Feature<G>>, geoidColumn: string, rows: seq<Row>, idColumn: string)
    requires HasColumn(features, geoidColumn)
    ensures FanOut(features, geoidColumn, rows, idColumn) >= |features|
    ensures FanOut(features, geoidColumn, rows, idColumn) == |features| <==>
      forall i :: 0 <= i < |features| ==> MatchCount(rows, idColumn, features[i].attrs[geoidColumn]) <= 1
  {
    if features != [] {
      assert forall f :: f in features[1..] ==> f in features;
      FanOutAtLeastOne(features[1..], geoidColumn, rows, idColumn);
      var tail := features[1..];
      assert forall i :: 1 <= i < |features| ==> features[i] == tail[i - 1];
    }
  }

  /** The merged rows are the features' blocks in layer order: those of the
      features before `i`, then the block of feature `i`, then the rest. */
  lemma LeftJoinAround<G>(features: seq<Feature<G>>, i: nat, geoidColumn: string, rows: seq<Row>, idColumn: string)
    requires HasColumn(features, geoidColumn) && i < |features|
    ensures HasColumn(features[..i], geoidColumn) && HasColumn(features[i + 1..], geoidColumn)
    ensures LeftJoin(features, geoidColumn, rows, idColumn) ==
      LeftJoin(features[..i], geoidColumn, rows, idColumn) + JoinOne(features[i], geoidColumn, rows, idColumn) +
      LeftJoin(features[i + 1..], geoidColumn, rows, idColumn)
  {
    var before, here, after := features[..i], [features[i]], features[i + 1..];
    HasColumnPieces(features, i, geoidColumn);
    assert features[..i + 1] == before + here;
    LeftJoinAppend(before, here, geoidColumn, rows, idColumn);
    LeftJoinSingle(features[i], geoidColumn, rows, idColumn);
    assert features == features[..i + 1] + after;
    LeftJoinAppend(features[..i + 1], after, geoidColumn, rows, idColumn);
  }

  lemma HasColumnPieces<G>(features: seq<Feature<G>>, i: nat, column: string)
    requires HasColumn(features, column) && i < |features|
    ensures HasColumn(features[..i], column) && HasColumn(features[i + 1..], column)
    ensures HasColumn(features[..i + 1], column) && HasColumn([features[i]], column)
  {
    assert forall f :: f in features[..i] ==> f in features;
    assert forall f :: f in features[..i + 1] ==> f in features;
    assert forall f :: f in features[i + 1..] ==> f in features;
  }

  lemma LeftJoinSingle<G>(f: Feature<G>, geoidColumn: string, rows: seq<Row>, idColumn: string)
    requires geoidColumn in f.attrs
    ensures HasColumn([f], geoidColumn)
    ensures LeftJoin([f], geoidColumn, rows, idColumn) == JoinOne(f, geoidColumn, rows, idColumn)
  {
    assert [f][1..] == [];
    assert JoinOne(f, geoidColumn, rows, idColumn) + [] == JoinOne(f, geoidColumn, rows, idColumn);
  }

  /** A feature with no match appears exactly once, at its own place, with
      null table columns. */
  lemma UnmatchedFeatureAppearsOnce<G>(features: seq<Feature<G>>, i: nat, geoidColumn: string, rows: seq<Row>, idColumn: string)
    requires HasColumn(features, geoidColumn) && i < |features|
    requires features[i].attrs[geoidColumn] !in TableKeys(rows, idColumn)
    ensures HasColumn(features[..i], geoidColumn) && HasColumn(features[i + 1..], geoidColumn)
    ensures LeftJoin(features, geoidColumn, rows, idColumn) ==
      LeftJoin(features[..i], geoidColumn, rows, idColumn) + [Merged(features[i], None)] +
      LeftJoin(features[i + 1..], geoidColumn, rows, idColumn)
  {
    LeftJoinAround(features, i, geoidColumn, rows, idColumn);
    MatchesEmptyIffKeyAbsent(rows, idColumn, features[i].attrs[geoidColumn]);
  }

  /** Every feature of the layer appears among the merged rows. */
  lemma EveryFeatureAppears<G>(features: seq<Feature<G>>, i: nat, geoidColumn: string, rows: seq<Row>, idColumn: string)
    requires HasColumn(features, geoidColumn) && i < |features|
    ensures exists m :: m in LeftJoin(features, geoidColumn, rows, idColumn) && m.feature == features[i]
  {
    LeftJoinAround(features, i, geoidColumn, rows, idColumn);
    var block := JoinOne(features[i], geoidColumn, rows, idColumn);
    assert block[0] in block;
  }

  // ---------------------------------------------------------------------------
  // merge_data_with_shapefile

  /** The merged frame and the `matched_count` reported for it. */
  datatype MergeResult<G> = MergeResult(merged: seq<Merged<G>>, matchedCount: nat)

  /** The inputs of one merge once both files are read: whether each path
      exists, and what reading it gives. */
  datatype MergeInputs<G> = MergeInputs(
    shapefilePath: string, shapefileExists: bool, layer: Layer<G>,
    dataPath: string, dataExists: bool, table: Table)

  /** Both inputs are well-formed frames. */
  ghost predicate ValidInputs<G>(inputs: MergeInputs<G>)
  {
    ValidLayer(inputs.layer) && Valid(inputs.table)
  }

  /** The layer has a column named like the table's id column that is not its
      own join key: the merge then suffixes both copies (`_x`, `_y`), and no
      column keeps the plain name. */
  predicate IdColumnClash<G>(layer: Layer<G>, geoidColumn: string, dataIdColumn: string)
  {
    geoidColumn != dataIdColumn && dataIdColumn in layer.columns
  }

  /** Checks both paths before reading anything, repairs the table's ids
      (line 56), looks up the layer's key column (line 57), left-joins and counts
      the matches. A missing shapefile is reported before a missing data file,
      and a missing id column of the table before one of the layer. Counting
      reads the merged id column (line 66): when both key columns have the same
      name the merge keeps one key column, filled from the layer for every row,
      so every merged row counts; when the layer has a column of the table's id
      name besides its key, that name is suffixed away and the lookup raises
      KeyError. */
  function MergeDataWithShapefile<G>(inputs: MergeInputs<G>, geoidColumn: string, dataIdColumn: string): (r: Result<MergeResult<G>>)
    requires ValidInputs(inputs)
    ensures !inputs.shapefileExists ==> r == Err(FileNotFoundError(inputs.shapefilePath))
    ensures inputs.shapefileExists && !inputs.dataExists ==> r == Err(FileNotFoundError(inputs.dataPath))
    ensures inputs.shapefileExists && inputs.dataExists && dataIdColumn !in inputs.table.columns ==>
      r == Err(KeyError(dataIdColumn))
    ensures inputs.shapefileExists && inputs.dataExists && dataIdColumn in inputs.table.columns &&
            geoidColumn !in inputs.layer.columns ==>
      r == Err(KeyError(geoidColumn))
    ensures inputs.shapefileExists && inputs.dataExists && dataIdColumn in inputs.table.columns &&
            geoidColumn in inputs.layer.columns && IdColumnClash(inputs.layer, geoidColumn, dataIdColumn) ==>
      r == Err(KeyError(dataIdColumn))
    ensures r.Ok? <==> inputs.shapefileExists && inputs.dataExists &&
                       dataIdColumn in inputs.table.columns && geoidColumn in inputs.layer.columns &&
                       !IdColumnClash(inputs.layer, geoidColumn, dataIdColumn)
    ensures r.Ok? ==>
      var rows := NormalizeColumn(inputs.table.rows, dataIdColumn);
      && HasColumn(inputs.layer.features, geoidColumn)
      && r.value.merged == LeftJoin(inputs.layer.features, geoidColumn, rows, dataIdColumn)
      && |r.value.merged| == FanOut(inputs.layer.features, geoidColumn, rows, dataIdColumn)
      && (geoidColumn != dataIdColumn ==>
            r.value.matchedCount == MatchTotal(inputs.layer.features, geoidColumn, rows, dataIdColumn))
      && (geoidColumn == dataIdColumn ==> r.value.matchedCount == |r.value.merged|)
      && r.value.matchedCount <= |r.value.merged|
  {
    if !inputs.shapefileExists then Err(FileNotFoundError(inputs.shapefilePath))
    else if !inputs.dataExists then Err(FileNotFoundError(inputs.dataPath))
    else if dataIdColumn !in inputs.table.columns then Err(KeyError(dataIdColumn))
    else
      var rows := NormalizeColumn(inputs.table.rows, dataIdColumn);
      if geoidColumn !in inputs.layer.columns then Err(KeyError(geoidColumn))
      else if IdColumnClash(inputs.layer, geoidColumn, dataIdColumn) then Err(KeyError(dataIdColumn))
      else
        LeftJoinCardinality(inputs.layer.features, geoidColumn, rows, dataIdColumn);
        var merged := LeftJoin(inputs.layer.features, geoidColumn, rows, dataIdColumn);
        Ok(MergeResult(merged, if geoidColumn == dataIdColumn then |merged| else MatchedCount(merged)))
  }

  /** A one-feature layer merged with a one-row table: the row joins exactly
      when its repaired id equals the feature's key as text, and then carries
      the repaired id. */
  lemma OneFeatureOneRow(key: string, id: string, geometry: int)
    ensures var f := Feature(map[DefaultGeoidColumn := key], geometry);
      var inputs := MergeInputs("tracts.shp", true, Layer({DefaultGeoidColumn}, [f]),
                                "data.csv", true, Table({DefaultDataIdColumn}, [map[DefaultDataIdColumn := id]]));
      var repaired := map[DefaultDataIdColumn := NormalizeId(id)];
      MergeDataWithShapefile(inputs, DefaultGeoidColumn, DefaultDataIdColumn) ==
        if NormalizeId(id) == key then Ok(MergeResult([Merged(f, Some(repaired))], 1))
        else Ok(MergeResult([Merged(f, None)], 0))
  {
    var f := Feature(map[DefaultGeoidColumn := key], geometry);
    var row := map[DefaultDataIdColumn := id];
    var repaired := map[DefaultDataIdColumn := NormalizeId(id)];
    var rows := NormalizeColumn([row], DefaultDataIdColumn);
    assert row[DefaultDataIdColumn := NormalizeId(id)] == repaired;
    assert rows[0] == repaired;
    assert rows == [repaired];
    assert [repaired][1..] == [];
    var merged := if NormalizeId(id) == key then [Merged(f, Some(repaired))] else [Merged(f, None)];
    assert JoinOne(f, DefaultGeoidColumn, rows, DefaultDataIdColumn) == merged;
    LeftJoinSingle(f, DefaultGeoidColumn, rows, DefaultDataIdColumn);
    assert merged[1..] == [];
    var joined := (m: Merged<int>) => m.joined.Some?;
    assert CountWhere(merged, joined) == if NormalizeId(id) == key then 1 else 0;
    var inputs := MergeInputs("tracts.shp", true, Layer({DefaultGeoidColumn}, [f]),
                              "data.csv", true, Table({DefaultDataIdColumn}, [row]));
    assert ValidInputs(inputs);
    var r := MergeDataWithShapefile(inputs, DefaultGeoidColumn, DefaultDataIdColumn);
    assert r.Ok?;
    assert r.value.merged == merged;
  }

  /** With one column name for both keys, an unmatched feature still counts:
      the single key column the merge keeps is filled from the layer. */
  lemma SharedKeyNameCountsEveryRow(key: string, id: string, geometry: int)
    requires NormalizeId(id) != key
    ensures var f := Feature(map[DefaultGeoidColumn := key], geometry);
      var inputs := MergeInputs("tracts.shp", true, Layer({DefaultGeoidColumn}, [f]),
                                "data.csv", true, Table({DefaultGeoidColumn}, [map[DefaultGeoidColumn := id]]));
      MergeDataWithShapefile(inputs, DefaultGeoidColumn, DefaultGeoidColumn) == Ok(MergeResult([Merged(f, None)], 1))
  {
    var f := Feature(map[DefaultGeoidColumn := key], geometry);
    var row := map[DefaultGeoidColumn := id];
    var repaired := map[DefaultGeoidColumn := NormalizeId(id)];
    var rows := NormalizeColumn([row], DefaultGeoidColumn);
    assert row[DefaultGeoidColumn := NormalizeId(id)] == repaired;
    assert rows == [repaired];
    assert [repaired][1..] == [];
    assert JoinOne(f, DefaultGeoidColumn, rows, DefaultGeoidColumn) == [Merged(f, None)];
    LeftJoinSingle(f, DefaultGeoidColumn, rows, DefaultGeoidColumn);
    var inputs := MergeInputs("tracts.shp", true, Layer({DefaultGeoidColumn}, [f]),
                              "data.csv", true, Table({DefaultGeoidColumn}, [row]));
    assert ValidInputs(inputs);
    var r := MergeDataWithShapefile(inputs, DefaultGeoidColumn, DefaultGeoidColumn);
    assert r.Ok?;
    assert r.value.merged == [Merged(f, None)];
  }

  /** Ids are matched as text: a census id that lost its leading zeros in the
      table (`001` read as the float `1.0`) is cut to `1` and no longer meets
      its boundary, which keeps null table columns; the float-formatted
      `110010074011.0` does meet the tract `110010074011`. */
  lemma JoinExamples(geometry: int)
    ensures var f := Feature(map[DefaultGeoidColumn := "001"], geometry);
      var inputs := MergeInputs("tracts.shp", true, Layer({DefaultGeoidColumn}, [f]),
                                "data.csv", true, Table({DefaultDataIdColumn}, [map[DefaultDataIdColumn := "1.0"]]));
      MergeDataWithShapefile(inputs, DefaultGeoidColumn, DefaultDataIdColumn) == Ok(MergeResult([Merged(f, None)], 0))
    ensures var f := Feature(map[DefaultGeoidColumn := "110010074011"], geometry);
      var inputs := MergeInputs("tracts.shp", true, Layer({DefaultGeoidColumn}, [f]),
                                "data.csv", true, Table({DefaultDataIdColumn}, [map[DefaultDataIdColumn := "110010074011.0"]]));
      MergeDataWithShapefile(inputs, DefaultGeoidColumn, DefaultDataIdColumn) ==
        Ok(MergeResult([Merged(f, Some(map[DefaultDataIdColumn := "110010074011"]))], 1))
  {
    NormalizeIdIsPrefixBeforeFirstDot("1.0", "1.0");
    assert NormalizeId("1.0") != "001" by {
      var r := NormalizeId("1.0");
      if |r| > 0 {
        assert r[0] == '1';
      }
    }
    OneFeatureOneRow("001", "1.0", geometry);
    var census := "110010074011";
    assert forall k :: 0 <= k < |census| ==> census[k] != '.';
    assert census + ".0" == "110010074011.0";
    NormalizeIdDropsFloatSuffix(census);
    OneFeatureOneRow("110010074011", "110010074011.0", geometry);
  }

  /** Three tracts and a table holding the first and the last tract's ids as
      floats (`x.0`, `z.0`): all three tracts come back in order, the first and
      the last with their repaired table row, the middle one with null table
      columns, and two matches are reported. */
  lemma ThreeTractsTwoMatched(x: string, y: string, z: string, g1: int, g2: int, g3: int)
    requires '.' !in x && '.' !in z
    requires x != y && y != z && x != z
    ensures var f1, f2, f3 := Feature(map[DefaultGeoidColumn := x], g1),
                              Feature(map[DefaultGeoidColumn := y], g2),
                              Feature(map[DefaultGeoidColumn := z], g3);
      var inputs := MergeInputs("tracts.shp", true, Layer({DefaultGeoidColumn}, [f1, f2, f3]),
                                "data.csv", true,
                                Table({DefaultDataIdColumn}, [map[DefaultDataIdColumn := x + ".0"],
                                                              map[DefaultDataIdColumn := z + ".0"]]));
      MergeDataWithShapefile(inputs, DefaultGeoidColumn, DefaultDataIdColumn) ==
        Ok(MergeResult([Merged(f1, Some(map[DefaultDataIdColumn := x])), Merged(f2, None),
                        Merged(f3, Some(map[DefaultDataIdColumn := z]))], 2))
  {
    var f1, f2, f3 := Feature(map[DefaultGeoidColumn := x], g1),
                      Feature(map[DefaultGeoidColumn := y], g2),
                      Feature(map[DefaultGeoidColumn := z], g3);
    var a, c := map[DefaultDataIdColumn := x + ".0"], map[DefaultDataIdColumn := z + ".0"];
    var a', c' := map[DefaultDataIdColumn := x], map[DefaultDataIdColumn := z];
    RepairTwoRows(x, z);
    var rows := [a', c'];
    var m1, m2, m3 := Merged(f1, Some(a')), Merged(f2, None), Merged(f3, Some(c'));
    var merged := [m1, m2, m3];
    JoinOfThreeTracts(f1, f2, f3, x, y, z);
    MatchedOfThree(m1, m2, m3);
    var inputs := MergeInputs("tracts.shp", true, Layer({DefaultGeoidColumn}, [f1, f2, f3]),
                              "data.csv", true, Table({DefaultDataIdColumn}, [a, c]));
    assert ValidInputs(inputs);
    var r := MergeDataWithShapefile(inputs, DefaultGeoidColumn, DefaultDataIdColumn);
    assert r.Ok?;
    assert r.value.merged == merged;
  }

  /** The join step of the three-tract example. */
  lemma JoinOfThreeTracts(f1: Feature<int>, f2: Feature<int>, f3: Feature<int>, x: string, y: string, z: string)
    requires f1.attrs == map[DefaultGeoidColumn := x] && f2.attrs == map[DefaultGeoidColumn := y]
    requires f3.attrs == map[DefaultGeoidColumn := z]
    requires x != y && y != z && x != z
    ensures var a', c' := map[DefaultDataIdColumn := x], map[DefaultDataIdColumn := z];
      && HasColumn([f1, f2, f3], DefaultGeoidColumn)
      && LeftJoin([f1, f2, f3], DefaultGeoidColumn, [a', c'], DefaultDataIdColumn) ==
           [Merged(f1, Some(a')), Merged(f2, None), Merged(f3, Some(c'))]
  {
    var a', c' := map[DefaultDataIdColumn := x], map[DefaultDataIdColumn := z];
    var rows := [a', c'];
    MatchesOfTwo(x, z, x);
    MatchesOfTwo(x, z, y);
    MatchesOfTwo(x, z, z);
    LeftJoinOfThree(f1, f2, f3, rows);
    assert JoinOne(f1, DefaultGeoidColumn, rows, DefaultDataIdColumn) == [Merged(f1, Some(a'))];
    assert JoinOne(f2, DefaultGeoidColumn, rows, DefaultDataIdColumn) == [Merged(f2, None)];
    assert JoinOne(f3, DefaultGeoidColumn, rows, DefaultDataIdColumn) == [Merged(f3, Some(c'))];
  }

  lemma MatchedOfThree(m1: Merged<int>, m2: Merged<int>, m3: Merged<int>)
    ensures MatchedCount([m1, m2, m3]) ==
      (if m1.joined.Some? then 1 else 0) + (if m2.joined.Some? then 1 else 0) + (if m3.joined.Some? then 1 else 0)
  {
    var merged := [m1, m2, m3];
    var joined := (m: Merged<int>) => m.joined.Some?;
    assert merged[1..] == [m2, m3] && merged[1..][1..] == [m3] && merged[1..][1..][1..] == [];
    assert CountWhere([m3], joined) == (if m3.joined.Some? then 1 else 0);
    assert CountWhere([m2, m3], joined) == (if m2.joined.Some? then 1 else 0) + CountWhere([m3], joined);
  }

  lemma LeftJoinOfThree(f1: Feature<int>, f2: Feature<int>, f3: Feature<int>, rows: seq<Row>)
    requires DefaultGeoidColumn in f1.attrs && DefaultGeoidColumn in f2.attrs && DefaultGeoidColumn in f3.attrs
    ensures HasColumn([f1, f2, f3], DefaultGeoidColumn)
    ensures LeftJoin([f1, f2, f3], DefaultGeoidColumn, rows, DefaultDataIdColumn) ==
      JoinOne(f1, DefaultGeoidColumn, rows, DefaultDataIdColumn) +
      JoinOne(f2, DefaultGeoidColumn, rows, DefaultDataIdColumn) +
      JoinOne(f3, DefaultGeoidColumn, rows, DefaultDataIdColumn)
  {
    var features := [f1, f2, f3];
    assert features[1..] == [f2, f3] && features[1..][1..] == [f3];
    LeftJoinSingle(f3, DefaultGeoidColumn, rows, DefaultDataIdColumn);
  }

  /** The example of three census tracts `001`, `002` and `003`, with table
      ids `001.0` and `003.0`. */
  lemma ThreeTractsExample(g1: int, g2: int, g3: int)
    ensures var f1, f2, f3 := Feature(map[DefaultGeoidColumn := "001"], g1),
                              Feature(map[DefaultGeoidColumn := "002"], g2),
                              Feature(map[DefaultGeoidColumn := "003"], g3);
      var inputs := MergeInputs("tracts.shp", true, Layer({DefaultGeoidColumn}, [f1, f2, f3]),
                                "data.csv", true,
                                Table({DefaultDataIdColumn}, [map[DefaultDataIdColumn := "001.0"],
                                                              map[DefaultDataIdColumn := "003.0"]]));
      MergeDataWithShapefile(inputs, DefaultGeoidColumn, DefaultDataIdColumn) ==
        Ok(MergeResult([Merged(f1, Some(map[DefaultDataIdColumn := "001"])), Merged(f2, None),
                        Merged(f3, Some(map[DefaultDataIdColumn := "003"]))], 2))
  {
    assert "001" + ".0" == "001.0" && "003" + ".0" == "003.0";
    assert "001"[2] != "002"[2] && "002"[2] != "003"[2] && "001"[2] != "003"[2];
    ThreeTractsTwoMatched("001", "002", "003", g1, g2, g3);
  }

  /** Line 56 on a two-row table of float-formatted ids. */
  lemma RepairTwoRows(x: string, y: string)
    requires '.' !in x && '.' !in y
    ensures NormalizeColumn([map[DefaultDataIdColumn := x + ".0"], map[DefaultDataIdColumn := y + ".0"]], DefaultDataIdColumn)
      == [map[DefaultDataIdColumn := x], map[DefaultDataIdColumn := y]]
  {
    NormalizeIdDropsFloatSuffix(x);
    NormalizeIdDropsFloatSuffix(y);
    var a, c := map[DefaultDataIdColumn := x + ".0"], map[DefaultDataIdColumn := y + ".0"];
    var rows := NormalizeColumn([a, c], DefaultDataIdColumn);
    assert rows[0] == a[DefaultDataIdColumn := x] == map[DefaultDataIdColumn := x];
    assert rows[1] == c[DefaultDataIdColumn := y] == map[DefaultDataIdColumn := y];
  }

  /** The matches of a key in a two-row table, in table order. */
  lemma MatchesOfTwo(x: string, y: string, key: string)
    ensures var p, q := map[DefaultDataIdColumn := x], map[DefaultDataIdColumn := y];
      Matches([p, q], DefaultDataIdColumn, key) ==
        (if x == key then [p] else []) + (if y == key then [q] else [])
  {
    var p, q := map[DefaultDataIdColumn := x], map[DefaultDataIdColumn := y];
    var keep := ColumnEquals(DefaultDataIdColumn, key);
    assert [p, q][1..] == [q] && [q][1..] == [];
    assert keep(p) == (x == key) && keep(q) == (y == key);
    var last := Filter([q], keep);
    assert last == (if y == key then [q] else []);
    assert Filter([p, q], keep) == (if x == key then [p] else []) + last;
  }
}
