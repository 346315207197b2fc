/**
 * The class-coloured plotting loop shared by `show_1D_umap`, `show_2D_umap`
 * and `show_3D_umap`: for every distinct metadata class, in order of first
 * appearance, scatter that class's rows in its mapped colour (gray when the
 * class is not mapped), add a legend entry for each mapped class, and finally
 * an "Other" entry when some class was not mapped.
 *
 * The UMAP embedding is foreign: its rows are a sequence of opaque points `P`
 * (1, 2 or 3 coordinates).  A scatter call is recorded as a `Draw`.
 */
module UmapPlot {
  import opened Wrappers
  import opened Unique
  import opened ClassColors

  /** The colour of points whose class has no entry in the colour map. */
  const Gray: Color := "#808080"

  /** The label of the legend entry that stands for all unmapped classes. */
  const OtherLabel: Label := "Other"

  /** A legend handle: a round marker with this label and face colour. */
  datatype LegendEntry = LegendEntry(name: Label, faceColor: Color)

  /** One `ax.scatter` call: the class, the rows it selected, their points, the colour. */
  datatype Draw<P> = Draw(cls: Label, rows: seq<nat>, points: seq<P>, color: Color)

  /** What a class-coloured plot shows: its scatter calls in order and its legend. */
  datatype Plot<P> = Plot(draws: seq<Draw<P>>, legend: seq<LegendEntry>)

  /** The embedding and the metadata column disagree on the number of rows. */
  datatype Error = LengthMismatch(embeddingRows: nat, metadataRows: nat)

  /**
   * `embedding[metadata_series.name] = metadata_series.tolist()`: the
   * embedding table gains the metadata column, which must have one value per
   * row; otherwise pandas raises.
   */
  function AttachMetadata<P>(embedding: seq<P>, labels: seq<Label>): (r: Result<seq<(P, Label)>, Error>)
    ensures r.Success? <==> |embedding| == |labels|
    ensures r.Failure? ==> r.error == LengthMismatch(|embedding|, |labels|)
    ensures r.Success? ==> |r.value| == |labels|
    ensures r.Success? ==> forall i :: 0 <= i < |labels| ==> r.value[i].0 == embedding[i] && r.value[i].1 == labels[i]
  {
    if |embedding| != |labels| then Failure(LengthMismatch(|embedding|, |labels|))
    else Success(seq(|labels|, i requires 0 <= i < |labels| => (embedding[i], labels[i])))
  }

  /**
   * The rows `embedding.loc[embedding[column] == c]` selects, as indices
   * into the embedding, in row order.
   */
  function RowsOf(labels: seq<Label>, c: Label): (rows: seq<nat>)
    ensures forall j :: 0 <= j < |rows| ==> rows[j] < |labels|
    decreases |labels|
  {
    if labels == [] then []
    else
      var n := |labels| - 1;
      RowsOf(labels[..n], c) + if labels[n] == c then [n] else []
  }

  /** `RowsOf` selects exactly the rows labelled `c`, each once, in ascending order. */
  lemma {:induction false} RowsOfSelects(labels: seq<Label>, c: Label)
    ensures forall i: nat :: i in RowsOf(labels, c) <==> i < |labels| && labels[i] == c
    ensures forall j, k :: 0 <= j < k < |RowsOf(labels, c)| ==> RowsOf(labels, c)[j] < RowsOf(labels, c)[k]
    decreases |labels|
  {
    if labels != [] {
      var n := |labels| - 1;
      RowsOfSelects(labels[..n], c);
      assert forall i :: 0 <= i < n ==> labels[..n][i] == labels[i];
    }
  }

  /** The points of the given rows. */
  function Pick<P>(embedding: seq<P>, rows: seq<nat>): seq<P>
    requires forall j :: 0 <= j < |rows| ==> rows[j] < |embedding|
  {
    seq(|rows|, j requires 0 <= j < |rows| => embedding[rows[j]])
  }

  /** The colour a class is drawn in: its mapped colour, or gray. */
  function ColorFor(classColors: map<Label, Color>, c: Label): Color {
    if c in classColors then classColors[c] else Gray
  }

  /** The scatter call the loop makes for class `c`. */
  function DrawOf<P>(embedding: seq<P>, labels: seq<Label>, classColors: map<Label, Color>, c: Label): Draw<P>
    requires |embedding| == |labels|
  {
    var rows := RowsOf(labels, c);
    Draw(c, rows, Pick(embedding, rows), ColorFor(classColors, c))
  }

  /** The legend entries of the mapped classes among `classes`, in that order. */
  function MappedEntries(classes: seq<Label>, classColors: map<Label, Color>): (m: seq<LegendEntry>)
    ensures |m| <= |classes|
    ensures forall k :: 0 <= k < |m| ==>
      m[k].name in classes && m[k].name in classColors && m[k].faceColor == classColors[m[k].name]
    decreases |classes|
  {
    if classes == [] then []
    else
      var n := |classes| - 1;
      assert classes == classes[..n] + [classes[n]];
      var c := classes[n];
      MappedEntries(classes[..n], classColors) +
        if c in classColors then [LegendEntry(c, classColors[c])] else []
  }

  /** Every mapped class among `classes` has its legend entry. */
  lemma {:induction false} MappedEntriesComplete(classes: seq<Label>, classColors: map<Label, Color>)
    ensures forall c :: c in classes && c in classColors ==> LegendEntry(c, classColors[c]) in MappedEntries(classes, classColors)
    decreases |classes|
  {
    if classes != [] {
      var n := |classes| - 1;
      assert classes == classes[..n] + [classes[n]];
      MappedEntriesComplete(classes[..n], classColors);
    }
  }

  /** Some class in `classes` has no entry in the colour map. */
  predicate AnyUnmapped(classes: seq<Label>, classColors: map<Label, Color>) {
    exists k :: 0 <= k < |classes| && classes[k] !in classColors
  }

  /** Visiting one more class adds its legend entry when it is mapped. */
  lemma MappedEntriesStep(classes: seq<Label>, classColors: map<Label, Color>, n: nat)
    requires n < |classes|
    ensures MappedEntries(classes[..n + 1], classColors) ==
      MappedEntries(classes[..n], classColors) +
        if classes[n] in classColors then [LegendEntry(classes[n], classColors[classes[n]])] else []
  {
    assert classes[..n + 1][..n] == classes[..n];
  }

  /** Visiting one more class sets the "unmapped" flag when it is not mapped. */
  lemma AnyUnmappedStep(classes: seq<Label>, classColors: map<Label, Color>, n: nat)
    requires n < |classes|
    ensures AnyUnmapped(classes[..n + 1], classColors) <==>
      AnyUnmapped(classes[..n], classColors) || classes[n] !in classColors
  {
    assert forall k :: 0 <= k < n ==> classes[..n + 1][k] == classes[..n][k];
  }

  /**
   * The legend as the source builds it: the mapped classes' entries, then an
   * "Other" entry whose swatch is the colour left by the last iteration.
   */
  function LegendOf(labels: seq<Label>, classColors: map<Label, Color>): seq<LegendEntry> {
    var d := Distinct(labels);
    MappedEntries(d, classColors) +
      if AnyUnmapped(d, classColors) then [LegendEntry(OtherLabel, ColorFor(classColors, d[|d| - 1]))] else []
  }

  /** The legend with the "Other" swatch gray, as the docstrings describe unmapped classes. */
  function IntendedLegendOf(labels: seq<Label>, classColors: map<Label, Color>): seq<LegendEntry> {
    var d := Distinct(labels);
    MappedEntries(d, classColors) +
      if AnyUnmapped(d, classColors) then [LegendEntry(OtherLabel, Gray)] else []
  }

  /** The scatter calls for `classes`, one per class, in that order. */
  function DrawsFor<P>(embedding: seq<P>, labels: seq<Label>, classColors: map<Label, Color>, classes: seq<Label>)
    : (draws: seq<Draw<P>>)
    requires |embedding| == |labels|
    ensures |draws| == |classes|
    decreases |classes|
  {
    if classes == [] then []
    else
      var n := |classes| - 1;
      DrawsFor(embedding, labels, classColors, classes[..n]) + [DrawOf(embedding, labels, classColors, classes[n])]
  }

  /** Visiting one more class adds its scatter call. */
  lemma DrawsForStep<P>(embedding: seq<P>, labels: seq<Label>, classColors: map<Label, Color>,
                        classes: seq<Label>, n: nat)
    requires |embedding| == |labels| && n < |classes|
    ensures DrawsFor(embedding, labels, classColors, classes[..n + 1]) ==
      DrawsFor(embedding, labels, classColors, classes[..n]) + [DrawOf(embedding, labels, classColors, classes[n])]
  {
    assert classes[..n + 1][..n] == classes[..n];
  }

  /** The k-th scatter call is the one for the k-th class. */
  lemma {:induction false} DrawsForAt<P>(embedding: seq<P>, labels: seq<Label>, classColors: map<Label, Color>,
                                         classes: seq<Label>, k: nat)
    requires |embedding| == |labels| && k < |classes|
    ensures DrawsFor(embedding, labels, classColors, classes)[k] == DrawOf(embedding, labels, classColors, classes[k])
    decreases |classes|
  {
    var n := |classes| - 1;
    if k < n {
      DrawsForAt(embedding, labels, classColors, classes[..n], k);
    }
  }

  /**
   * The loop of `show_1D_umap` (and, identically, of the 2D and 3D variants),
   * over an embedding that already carries the metadata column.
   */
  method PlotClasses<P>(embedding: seq<P>, labels: seq<Label>, classColors: map<Label, Color>)
    returns (plot: Plot<P>)
    requires |embedding| == |labels|
    ensures plot.draws == DrawsFor(embedding, labels, classColors, Distinct(labels))
    ensures plot.legend == LegendOf(labels, classColors)
  {
    var classes := Distinct(labels);
    var draws: seq<Draw<P>> := [];
    var legendElements: seq<LegendEntry> := [];
    var otherClassesExist := false;
    var color: Option<Color> := None;
    for index := 0 to |classes|
      invariant draws == DrawsFor(embedding, labels, classColors, classes[..index])
      invariant legendElements == MappedEntries(classes[..index], classColors)
      invariant otherClassesExist == AnyUnmapped(classes[..index], classColors)
      invariant color == if index == 0 then None else Some(ColorFor(classColors, classes[index - 1]))
    {
      var metadataClass := classes[index];
      var rows := RowsOf(labels, metadataClass);
      var points := Pick(embedding, rows);
      DrawsForStep(embedding, labels, classColors, classes, index);
      MappedEntriesStep(classes, classColors, index);
      AnyUnmappedStep(classes, classColors, index);
      if metadataClass in classColors {
        color := Some(classColors[metadataClass]);
        legendElements := legendElements + [LegendEntry(metadataClass, classColors[metadataClass])];
      } else {
        otherClassesExist := true;
        color := Some(Gray);
      }
      draws := draws + [Draw(metadataClass, rows, points, color.value)];
    }
    assert classes[..|classes|] == classes;
    assert legendElements == MappedEntries(classes, classColors);
    assert otherClassesExist == AnyUnmapped(classes, classColors);
    if otherClassesExist {
      legendElements := legendElements + [LegendEntry(OtherLabel, color.value)];
    }
    plot := Plot(draws, legendElements);
  }

  /**
   * `show_1D_umap` after the embedding is computed: attach the metadata
   * column, then run the class loop.
   */
  method Show1DUmap<P>(embedding: seq<P>, labels: seq<Label>, classColors: map<Label, Color>)
    returns (r: Result<Plot<P>, Error>)
    ensures r.Failure? <==> |embedding| != |labels|
    ensures r.Failure? ==> r.error == LengthMismatch(|embedding|, |labels|)
    ensures r.Success? ==> r.value.draws == DrawsFor(embedding, labels, classColors, Distinct(labels))
    ensures r.Success? ==> r.value.legend == LegendOf(labels, classColors)
  {
    var table := AttachMetadata(embedding, labels);
    if table.Failure? {
      return Failure(table.error);
    }
    var plot := PlotClasses(embedding, labels, classColors);
    return Success(plot);
  }

  /** `show_2D_umap`: as the 1D variant, and it also returns the embedding table with the metadata column. */
  method Show2DUmap<P>(embedding: seq<P>, labels: seq<Label>, classColors: map<Label, Color>)
    returns (r: Result<(Plot<P>, seq<(P, Label)>), Error>)
    ensures r.Failure? <==> |embedding| != |labels|
    ensures r.Failure? ==> r.error == LengthMismatch(|embedding|, |labels|)
    ensures r.Success? ==> r.value.0.draws == DrawsFor(embedding, labels, classColors, Distinct(labels))
    ensures r.Success? ==> r.value.0.legend == LegendOf(labels, classColors)
    ensures r.Success? ==> |r.value.1| == |labels|
    ensures r.Success? ==> forall i :: 0 <= i < |labels| ==> r.value.1[i] == (embedding[i], labels[i])
  {
    var table := AttachMetadata(embedding, labels);
    if table.Failure? {
      return Failure(table.error);
    }
    var plot := PlotClasses(embedding, labels, classColors);
    return Success((plot, table.value));
  }

  /** `show_3D_umap`: the same loop over three-coordinate points; nothing is returned besides the plot. */
  method Show3DUmap<P>(embedding: seq<P>, labels: seq<Label>, classColors: map<Label, Color>)
    returns (r: Result<Plot<P>, Error>)
    ensures r.Failure? <==> |embedding| != |labels|
    ensures r.Failure? ==> r.error == LengthMismatch(|embedding|, |labels|)
    ensures r.Success? ==> r.value.draws == DrawsFor(embedding, labels, classColors, Distinct(labels))
    ensures r.Success? ==> r.value.legend == LegendOf(labels, classColors)
  {
    var table := AttachMetadata(embedding, labels);
    if table.Failure? {
      return Failure(table.error);
    }
    var plot := PlotClasses(embedding, labels, classColors);
    return Success(plot);
  }

  /**
   * The scatter calls partition the rows: row i is drawn by the call of its
   * own class and by no other, in that class's colour.
   */
  lemma {:induction false} DrawsPartitionRows<P>(draws: seq<Draw<P>>, embedding: seq<P>, labels: seq<Label>, classColors: map<Label, Color>)
    requires |embedding| == |labels|
    requires draws == DrawsFor(embedding, labels, classColors, Distinct(labels))
    ensures forall i :: 0 <= i < |labels| ==>
      labels[i] in Distinct(labels) && i in draws[FirstIndex(Distinct(labels), labels[i])].rows
    ensures forall i, k1, k2 ::
      (0 <= k1 < |draws| && 0 <= k2 < |draws| && i in draws[k1].rows && i in draws[k2].rows) ==> k1 == k2
    ensures forall k, i :: 0 <= k < |draws| && i in draws[k].rows ==>
      i < |labels| && draws[k].cls == labels[i] && draws[k].color == ColorFor(classColors, labels[i])
  {
    var d := Distinct(labels);
    forall k | 0 <= k < |draws|
      ensures draws[k].cls == d[k] && draws[k].color == ColorFor(classColors, d[k])
      ensures forall i :: i in draws[k].rows <==> 0 <= i < |labels| && labels[i] == d[k]
    {
      DrawsForAt(embedding, labels, classColors, d, k);
      RowsOfSelects(labels, d[k]);
    }
  }

  /** The mapped classes' entries keep the visiting order of the classes. */
  lemma {:induction false} MappedEntriesInVisitingOrder(classes: seq<Label>, classColors: map<Label, Color>)
    requires NoDuplicates(classes)
    ensures forall i, j :: 0 <= i < j < |MappedEntries(classes, classColors)| ==>
      FirstIndex(classes, MappedEntries(classes, classColors)[i].name) <
      FirstIndex(classes, MappedEntries(classes, classColors)[j].name)
  {
    if classes != [] {
      var n := |classes| - 1;
      var p := MappedEntries(classes[..n], classColors);
      var m := MappedEntries(classes, classColors);
      MappedEntriesInVisitingOrder(classes[..n], classColors);
      forall i | 0 <= i < |p|
        ensures FirstIndex(classes, p[i].name) == FirstIndex(classes[..n], p[i].name)
      {
        FirstIndexOfPrefix(classes, n, p[i].name);
      }
      if classes[n] in classColors {
        assert m == p + [LegendEntry(classes[n], classColors[classes[n]])];
        FirstIndexOfNewLast(classes);
        forall i, j | 0 <= i < j < |m|
          ensures FirstIndex(classes, m[i].name) < FirstIndex(classes, m[j].name)
        {
          assert m[i] == p[i];
          if j < |p| {
            assert m[j] == p[j];
          }
        }
      }
    }
  }

  /** Some distinct class is unmapped exactly when some row's class is unmapped. */
  lemma AnyUnmappedIffSomeRow(labels: seq<Label>, classColors: map<Label, Color>)
    ensures AnyUnmapped(Distinct(labels), classColors) <==>
      exists i :: 0 <= i < |labels| && labels[i] !in classColors
  {
    var d := Distinct(labels);
    if i :| 0 <= i < |labels| && labels[i] !in classColors {
      var k := FirstIndex(d, labels[i]);
      assert d[k] !in classColors;
    }
    if k :| 0 <= k < |d| && d[k] !in classColors {
      var i := FirstIndex(labels, d[k]);
      assert labels[i] !in classColors;
    }
  }

  /**
   * The legend is the mapped classes' entries, followed by one more entry
   * exactly when some row's class is not in the colour map; that entry is
   * "Other" with the colour of the last visited class.
   */
  lemma OtherEntryIffUnmappedRow(labels: seq<Label>, classColors: map<Label, Color>)
    ensures |LegendOf(labels, classColors)| >= |MappedEntries(Distinct(labels), classColors)|
    ensures LegendOf(labels, classColors)[..|MappedEntries(Distinct(labels), classColors)|] ==
      MappedEntries(Distinct(labels), classColors)
    ensures |LegendOf(labels, classColors)| <= |MappedEntries(Distinct(labels), classColors)| + 1
    ensures |LegendOf(labels, classColors)| == |MappedEntries(Distinct(labels), classColors)| + 1 <==>
      exists i :: 0 <= i < |labels| && labels[i] !in classColors
    ensures (exists i :: 0 <= i < |labels| && labels[i] !in classColors) ==>
      LegendOf(labels, classColors)[|LegendOf(labels, classColors)| - 1] ==
        LegendEntry(OtherLabel, ColorFor(classColors, Distinct(labels)[|Distinct(labels)| - 1]))
  {
    AnyUnmappedIffSomeRow(labels, classColors);
    var m := MappedEntries(Distinct(labels), classColors);
    assert LegendOf(labels, classColors)[..|m|] == m;
  }

  /**
   * The mapped classes' legend entries appear in the order in which their
   * classes first appear in the metadata column, each class once.
   */
  lemma LegendFollowsFirstAppearance(labels: seq<Label>, classColors: map<Label, Color>)
    ensures forall i, j :: 0 <= i < j < |MappedEntries(Distinct(labels), classColors)| ==>
      MappedEntries(Distinct(labels), classColors)[i].name in labels &&
      MappedEntries(Distinct(labels), classColors)[j].name in labels &&
      FirstIndex(labels, MappedEntries(Distinct(labels), classColors)[i].name) <
      FirstIndex(labels, MappedEntries(Distinct(labels), classColors)[j].name)
  {
    var d := Distinct(labels);
    var m := MappedEntries(d, classColors);
    MappedEntriesInVisitingOrder(d, classColors);
    DistinctInFirstAppearanceOrder(labels);
    forall i, j | 0 <= i < j < |m|
      ensures FirstIndex(labels, m[i].name) < FirstIndex(labels, m[j].name)
    {
      var p, q := FirstIndex(d, m[i].name), FirstIndex(d, m[j].name);
      assert p < q;
      assert FirstIndex(labels, d[p]) < FirstIndex(labels, d[q]);
    }
  }

  /**
   * The "Other" swatch is the colour of the class whose first row comes last:
   * gray only when that class is unmapped (or mapped to gray itself).
   */
  lemma OtherSwatchIsLastVisitedColor(labels: seq<Label>, classColors: map<Label, Color>, c: Label)
    requires exists i :: 0 <= i < |labels| && labels[i] !in classColors
    requires c in labels && forall x :: x in labels ==> FirstIndex(labels, x) <= FirstIndex(labels, c)
    ensures |LegendOf(labels, classColors)| > 0
    ensures LegendOf(labels, classColors)[|LegendOf(labels, classColors)| - 1] ==
      LegendEntry(OtherLabel, ColorFor(classColors, c))
    ensures LegendOf(labels, classColors)[|LegendOf(labels, classColors)| - 1].faceColor == Gray <==>
      c !in classColors || classColors[c] == Gray
  {
    var d := Distinct(labels);
    OtherEntryIffUnmappedRow(labels, classColors);
    DistinctInFirstAppearanceOrder(labels);
    assert d[FirstIndex(d, c)] == c;
  }

  /**
   * A concrete plot whose "Other" swatch is not gray: the unmapped class
   * "Interphase" is drawn gray, but since the mapped "Prometaphase" is visited
   * last, the "Other" legend entry shows the Prometaphase colour.
   */
  lemma OtherSwatchNotGrayExample()
    ensures LegendOf(["Interphase", "Prometaphase"], map["Prometaphase" := "#023eff"]) ==
      [LegendEntry("Prometaphase", "#023eff"), LegendEntry(OtherLabel, "#023eff")]
    ensures ColorFor(map["Prometaphase" := "#023eff"], "Interphase") == Gray
  {
    var labels := ["Interphase", "Prometaphase"];
    var cc := map["Prometaphase" := "#023eff"];
    assert labels[..1] == ["Interphase"] && ["Interphase"][..0] == [];
    assert Distinct(["Interphase"]) == ["Interphase"];
    assert Distinct(labels) == labels;
    assert MappedEntries(["Interphase"], cc) == [] by {
      assert "Interphase" !in cc;
    }
    assert MappedEntries(labels, cc) == [LegendEntry("Prometaphase", "#023eff")];
    assert AnyUnmapped(labels, cc) by { assert labels[0] !in cc; }
  }

  /**
   * The corrected legend differs from the legend as written at most in the
   * "Other" swatch, which it always shows gray; the two agree exactly when
   * no row is unmapped or the last visited class is drawn gray anyway.
   */
  lemma IntendedLegendOtherIsGray(labels: seq<Label>, classColors: map<Label, Color>)
    ensures |IntendedLegendOf(labels, classColors)| == |LegendOf(labels, classColors)|
    ensures IntendedLegendOf(labels, classColors)[..|MappedEntries(Distinct(labels), classColors)|] ==
      MappedEntries(Distinct(labels), classColors)
    ensures (exists i :: 0 <= i < |labels| && labels[i] !in classColors) ==>
      IntendedLegendOf(labels, classColors)[|IntendedLegendOf(labels, classColors)| - 1] ==
        LegendEntry(OtherLabel, Gray)
    ensures IntendedLegendOf(labels, classColors) == LegendOf(labels, classColors) <==>
      (forall i :: 0 <= i < |labels| ==> labels[i] in classColors) ||
      ColorFor(classColors, Distinct(labels)[|Distinct(labels)| - 1]) == Gray
  {
    AnyUnmappedIffSomeRow(labels, classColors);
    var d := Distinct(labels);
    var m := MappedEntries(d, classColors);
    assert IntendedLegendOf(labels, classColors)[..|m|] == m;
    if AnyUnmapped(d, classColors) && IntendedLegendOf(labels, classColors) == LegendOf(labels, classColors) {
      var n := |m|;
      assert IntendedLegendOf(labels, classColors)[n] == LegendOf(labels, classColors)[n];
    }
  }
}
