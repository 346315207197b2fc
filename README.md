# Class colours and legends of the mitocheck UMAP plots

This project models the class-colouring core of `utils/analysis_utils.py` in the
mitocheck_data analysis utilities. There are two parts.

- `get_class_colors` builds a dictionary. It maps each class name in a list to
  one colour of a palette with as many colours as there are classes.
- `show_1D_umap`, `show_2D_umap` and `show_3D_umap` first attach the metadata
  column to the UMAP embedding. They then run the same loop over the column's
  distinct classes, in order of first appearance. For each class the loop:
  - selects that class's rows;
  - draws them in the class's colour, or in gray `#808080` when the class is
    not in the colour dictionary;
  - adds a legend entry for each class that is coloured;
  - remembers whether any class was left gray.

  At the end, an "Other" entry is added when some class was left gray. Its
  swatch is whatever `color` the last iteration left behind.

The three plot functions differ only in the number of embedding coordinates.
Their loops (lines 165-212, 265-312 and 367-415) are identical up to that
number. So one method, `UmapPlot.PlotClasses`, models the loop, and the points
are an opaque type `P`. `show_2D_umap` also returns the embedding table with
the metadata column, and `UmapPlot.Show2DUmap` models that too.

Files:

- `wrappers.dfy`: `Option` and `Result`.
- `unique.dfy`: pandas' `Series.unique().tolist()` as `Distinct`, plus the
  first-occurrence index.
- `class_colors.dfy`: `get_class_colors`.
- `umap_plot.dfy`: row selection, the specification of the draws and the
  legend, the plotting loop and the three entry points.

Each imperative loop is a method. It is proved equal to a recursive
specification function, and the properties are proved about that function as
lemmas.

## Model

| member | source | states |
|---|---|---|
| ClassColors.ColorsOf | utils/analysis_utils.py:116-121 | The dictionary's keys are exactly the listed class names, and every value is a palette colour. |
| ClassColors.GetClassColors | utils/analysis_utils.py:99-122 | The loop that fills `class_colors` one index at a time returns exactly `ColorsOf(classes, palette)`. |
| ClassColors.ColorAtLastOccurrence | utils/analysis_utils.py:119-120 | A class gets the palette colour of the last position where it occurs, because later assignments overwrite earlier ones. |
| ClassColors.DistinctClassesTakeTheirPosition | utils/analysis_utils.py:118-120 | With duplicate-free class names, the dictionary has one entry per class and class i gets palette colour i. |
| ClassColors.DistinctPaletteDistinctColors | utils/analysis_utils.py:118-120 | Distinct class names and a palette of distinct colours give different classes different colours. |
| Unique.FirstIndex | utils/analysis_utils.py:171-173 | The index returned holds the value and no earlier index does. |
| Unique.Distinct | utils/analysis_utils.py:171-173 | `unique()` returns exactly the values of the column, each once, and never more values than rows. |
| Unique.DistinctInFirstAppearanceOrder | utils/analysis_utils.py:171-173 | The distinct classes come in strictly increasing order of their first row. |
| Unique.NoDuplicatesCardinality | utils/analysis_utils.py:118-120 | A duplicate-free list has as many distinct names as elements. |
| UmapPlot.AttachMetadata | utils/analysis_utils.py:155-157 | Attaching the metadata column succeeds exactly when it has as many rows as the embedding; the error carries both lengths; row i of the table pairs embedding row i with label i. |
| UmapPlot.RowsOf | utils/analysis_utils.py:174-176 | Every row index selected for a class is a row of the table. |
| UmapPlot.RowsOfSelects | utils/analysis_utils.py:174-176 | The rows selected for class c are exactly those whose metadata value is c, in increasing order. |
| UmapPlot.DrawsFor | utils/analysis_utils.py:171-198 | There is one scatter call per visited class. |
| UmapPlot.DrawsForAt | utils/analysis_utils.py:171-198 | Scatter call k draws class k with its selected rows and points, in the dictionary colour when the class is mapped and in gray otherwise. |
| UmapPlot.DrawsForStep | utils/analysis_utils.py:171-198 | One more iteration appends exactly one scatter call, for the next class. |
| UmapPlot.MappedEntries | utils/analysis_utils.py:181-193 | Every legend entry the loop adds names a visited class that is in the dictionary, with its dictionary colour as the swatch; there are never more entries than classes. |
| UmapPlot.MappedEntriesComplete | utils/analysis_utils.py:181-193 | Every visited class that is in the dictionary gets its legend entry. |
| UmapPlot.MappedEntriesStep | utils/analysis_utils.py:181-193 | One more iteration adds an entry exactly when the new class is mapped. |
| UmapPlot.AnyUnmappedStep | utils/analysis_utils.py:194-196 | `other_classes_exist` becomes true exactly when the new class is unmapped, and then stays true. |
| UmapPlot.MappedEntriesInVisitingOrder | utils/analysis_utils.py:181-193 | The entries are in the order the loop visits their classes. |
| UmapPlot.PlotClasses | utils/analysis_utils.py:165-212 | The loop's scatter calls are exactly `DrawsFor` over the distinct classes, and its legend is exactly `LegendOf`. This includes the "Other" entry with the colour the last iteration left in `color`. |
| UmapPlot.Show1DUmap | utils/analysis_utils.py:153-224 | A metadata column of the wrong length fails with the length mismatch. Otherwise the plot's draws and legend are those of `PlotClasses`. |
| UmapPlot.Show2DUmap | utils/analysis_utils.py:255-326 | As `Show1DUmap`, and the returned table pairs each embedding row with its metadata value. |
| UmapPlot.Show3DUmap | utils/analysis_utils.py:357-428 | As `Show1DUmap`, for the three-dimensional plot. |
| UmapPlot.DrawsPartitionRows | utils/analysis_utils.py:171-198 | The scatter calls partition the rows. Every row is drawn by the call of its own class, no row by two calls, and each drawn row has that call's class and colour (mapped colour or gray). |
| UmapPlot.AnyUnmappedIffSomeRow | utils/analysis_utils.py:194-201 | After the loop, `other_classes_exist` holds exactly when some row's class is not in the dictionary. |
| UmapPlot.OtherEntryIffUnmappedRow | utils/analysis_utils.py:200-212 | The legend starts with the mapped classes' entries and has at most one more entry. That entry is present exactly when some row's class is unmapped, and it is "Other" with the last visited class's colour. |
| UmapPlot.LegendFollowsFirstAppearance | utils/analysis_utils.py:171-193 | Mapped legend entries are in strictly increasing order of their class's first row. |
| UmapPlot.OtherSwatchIsLastVisitedColor | utils/analysis_utils.py:196-209 | When an "Other" entry exists, its swatch is the colour of the class whose first row comes last. It is gray exactly when that class is unmapped or mapped to gray. |
| UmapPlot.OtherSwatchNotGrayExample | utils/analysis_utils.py:196-209 | Take rows ["Interphase", "Prometaphase"] with only Prometaphase mapped to "#023eff". Interphase is drawn gray, but the "Other" swatch is "#023eff". |
| UmapPlot.IntendedLegendOtherIsGray | utils/analysis_utils.py:200-212 | The corrected legend keeps the mapped entries and the length of the legend as written, and its "Other" swatch is always gray. It equals the legend as written exactly when no row is unmapped or the last visited class is drawn gray anyway. |

## Left out

- UMAP fitting (`umap.UMAP(...).fit_transform`) is foreign numerical code. The embedding is a parameter: a sequence of opaque points.
- The uniform random y-coordinates of the 1D plot (`np.random.rand`) are left out. The model keeps the rows a class draws, not their coordinates.
- Figure setup, marker size, opacity, axis labels, titles, legend placement, `plt.savefig` and `plt.show` are left out. They are matplotlib I/O and do not affect colours or legend contents.
- Palette generation (`sns.color_palette`) and `rgb2hex` are foreign. The palette is given as the sequence of hex strings they produce, one per class.
- ClassColors.GetClassColors: the result is a Dafny `map`, which has no key order. It therefore drops the first-insertion order of the Python dict that `get_class_colors` returns. No modelled code iterates that dict.
- `1.idr_streams/streams/dp_streams.py` and `3.normalize_data/scripts/nbconverted/raw_data_umaps.py` are not part of this model. Neither calls `get_class_colors` or any `show_*D_umap`.
- `get_2D_umap_embeddings` (`utils/analysis_utils.py:13-40`) is left out. It is UMAP fitting only.
- `show_2D_umap_from_embeddings` (`utils/analysis_utils.py:43-96`) is left out. It is a seaborn hue plot with no class loop or legend logic of its own.
- The metadata column's name can coincide with a UMAP column name, such as "UMAP1". The table would then overwrite that column. The model keeps embedding and labels apart and does not capture this. In `show_1D_umap`, a metadata column named "y_distribution" is itself overwritten with random floats at line 161. The loop then groups rows by those floats, which the model does not capture either.
- Missing values (NaN) in the metadata column are not modelled. Labels are plain strings compared by equality.
- A mapped class literally named "Other" gives two legend entries labelled "Other". So the "Other" property is stated by the legend's length, not by its labels.

## Findings

| source | as written | input that shows it | evidently intended | confidence | as-written member | corrected member |
|---|---|---|---|---|---|---|
| utils/analysis_utils.py:209 | The "Other" legend entry uses `markerfacecolor=color`, the colour left by the last loop iteration. | Metadata rows ["Interphase", "Prometaphase"] with `class_colors = {"Prometaphase": "#023eff"}`. Interphase is drawn gray, yet the "Other" swatch is "#023eff". | The "Other" swatch is gray `#808080`, the colour every unmapped class is drawn in. The same line appears at 309 and 412. | not executed | UmapPlot.OtherSwatchNotGrayExample | UmapPlot.IntendedLegendOtherIsGray |
