/**
 * `get_class_colors`: the dictionary from class names to hex colours that
 * the class-coloured UMAP plots use.  The palette lookup
 * (`sns.color_palette(palette, n)` followed by `rgb2hex`) is foreign; it is
 * modelled as the sequence of `n` hex strings it yields.
 */
module ClassColors {
  import opened Unique

  /** A class name, as it appears in a metadata column. */
  type Label = string

  /** A hex colour string such as "#1f77b4". */
  type Color = string

  /** The names occurring in a class list. */
  function NamesOf(classes: seq<Label>): set<Label> {
    set c | c in classes
  }

  /**
   * The dictionary the loop ends with: `class_colors[classes[i]] = palette[i]`
   * for i = 0, 1, ... in turn, so a later duplicate overwrites an earlier one.
   */
  function ColorsOf(classes: seq<Label>, palette: seq<Color>): (r: map<Label, Color>)
    requires |palette| == |classes|
    ensures r.Keys == NamesOf(classes)
    ensures forall c :: c in r ==> r[c] in palette
    decreases |classes|
  {
    if classes == [] then map[]
    else
      var n := |classes| - 1;
      assert classes == classes[..n] + [classes[n]];
      assert palette == palette[..n] + [palette[n]];
      ColorsOf(classes[..n], palette[..n])[classes[n] := palette[n]]
  }

  /** Fills `class_colors` one class at a time, as `get_class_colors` does. */
  method GetClassColors(classes: seq<Label>, palette: seq<Color>) returns (classColors: map<Label, Color>)
    requires |palette| == |classes|
    ensures classColors == ColorsOf(classes, palette)
  {
    classColors := map[];
    for index := 0 to |classes|
      invariant classColors == ColorsOf(classes[..index], palette[..index])
    {
      assert classes[..index + 1][..index] == classes[..index];
      assert palette[..index + 1][..index] == palette[..index];
      classColors := classColors[classes[index] := palette[index]];
    }
    assert classes[..|classes|] == classes && palette[..|palette|] == palette;
  }

  /** A class receives the palette colour at the LAST position where it occurs. */
  lemma {:induction false} ColorAtLastOccurrence(classes: seq<Label>, palette: seq<Color>, i: nat)
    requires |palette| == |classes| && i < |classes|
    requires forall j :: i < j < |classes| ==> classes[j] != classes[i]
    ensures classes[i] in ColorsOf(classes, palette)
    ensures ColorsOf(classes, palette)[classes[i]] == palette[i]
  {
    var n := |classes| - 1;
    if i < n {
      ColorAtLastOccurrence(classes[..n], palette[..n], i);
    }
  }

  /**
   * With distinct names, class i gets palette colour i and the dictionary has
   * exactly one entry per name.
   */
  lemma DistinctClassesTakeTheirPosition(classes: seq<Label>, palette: seq<Color>)
    requires |palette| == |classes| && NoDuplicates(classes)
    ensures |ColorsOf(classes, palette)| == |classes|
    ensures forall i :: 0 <= i < |classes| ==> ColorsOf(classes, palette)[classes[i]] == palette[i]
  {
    forall i | 0 <= i < |classes|
      ensures ColorsOf(classes, palette)[classes[i]] == palette[i]
    {
      ColorAtLastOccurrence(classes, palette, i);
    }
    NoDuplicatesCardinality(classes);
    assert ColorsOf(classes, palette).Keys == set x | x in classes;
  }

  /** Distinct names and a palette of distinct colours give distinct class colours. */
  lemma DistinctPaletteDistinctColors(classes: seq<Label>, palette: seq<Color>)
    requires |palette| == |classes| && NoDuplicates(classes) && NoDuplicates(palette)
    ensures forall a, b :: a in ColorsOf(classes, palette) && b in ColorsOf(classes, palette) && a != b ==>
      ColorsOf(classes, palette)[a] != ColorsOf(classes, palette)[b]
  {
    var r := ColorsOf(classes, palette);
    DistinctClassesTakeTheirPosition(classes, palette);
    forall a, b | a in r && b in r && a != b
      ensures r[a] != r[b]
    {
      var i :| 0 <= i < |classes| && classes[i] == a;
      var j :| 0 <= j < |classes| && classes[j] == b;
      assert r[a] == palette[i] && r[b] == palette[j];
    }
  }
}
