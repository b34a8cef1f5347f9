/** The layered text format shared by `.soma` figures, the front end's
    original-shape mask, the encoder's output and the back end's re-rendered
    solutions: one line per row, one character per cell, rows separated by a
    newline and layers by a blank line. */
module Layout {
  import opened Text

  /** The characters that mark a cell as part of a figure: `*` (filled) and
      `o` (part of the figure, shown hollow). Every other character, `.`
      above all, marks a cell outside it. */
  const CellMarks: set<char> := {'*', 'o'}

  /** The rows of one layer as the back end reads them, in the parser and
      in the placement check alike: the layer stripped, then split at each
      newline. */
  function LayerRows(layer: string): (rows: seq<string>)
    ensures |rows| >= 1
  {
    Split(Strip(layer), "\n")
  }

  /** One layer: its rows joined by single newlines. */
  function LayerText(rows: seq<string>): string {
    Join(rows, "\n")
  }

  function LayerTexts(layers: seq<seq<string>>): (r: seq<string>)
    ensures |r| == |layers|
    ensures forall z :: 0 <= z < |layers| ==> r[z] == LayerText(layers[z])
  {
    seq(|layers|, z requires 0 <= z < |layers| => LayerText(layers[z]))
  }

  /** `grid_to_string` in the back end: layer texts joined by a blank line.
      A `.soma` figure with layers `layers` reads the same. */
  function Render(layers: seq<seq<string>>): string {
    Join(LayerTexts(layers), "\n\n")
  }

  /** Every cell of a figure appears in its rendering. */
  lemma RenderHas(layers: seq<seq<string>>, z: nat, y: nat, x: nat)
    requires z < |layers| && y < |layers[z]| && x < |layers[z][y]|
    ensures layers[z][y][x] in Render(layers)
  {
    var texts := LayerTexts(layers);
    JoinHas(layers[z], "\n", y, x);
    var k :| 0 <= k < |texts[z]| && texts[z][k] == layers[z][y][x];
    JoinHas(texts, "\n\n", z, k);
  }

  /** A rendering holds nothing but cells and newlines. */
  lemma RenderChars(layers: seq<seq<string>>, ch: char)
    requires ch in Render(layers)
    ensures ch == '\n' || exists z, y :: 0 <= z < |layers| && 0 <= y < |layers[z]| && ch in layers[z][y]
  {
    var texts := LayerTexts(layers);
    JoinChars(texts, "\n\n", ch);
    if ch != '\n' {
      var z :| 0 <= z < |texts| && ch in texts[z];
      JoinChars(layers[z], "\n", ch);
    }
  }

  /** A row of cells as it appears in every figure and encoding. */
  predicate SolidRow(row: string) {
    |row| > 0 && NoSpace(row)
  }

  /** Layers that come back unchanged from splitting their rendering: at
      least one layer, every layer with at least one row, every row non-empty
      and free of whitespace. */
  predicate Solid(layers: seq<seq<string>>) {
    && |layers| > 0
    && (forall z :: 0 <= z < |layers| ==> |layers[z]| > 0)
    && (forall z, y :: 0 <= z < |layers| && 0 <= y < |layers[z]| ==> SolidRow(layers[z][y]))
  }

  /** Every layer has `height` rows of `width` cells. */
  predicate Rectangular(layers: seq<seq<string>>, width: nat, height: nat) {
    && (forall z :: 0 <= z < |layers| ==> |layers[z]| == height)
    && (forall z, y :: 0 <= z < |layers| && 0 <= y < |layers[z]| ==> |layers[z][y]| == width)
  }

  /** Non-empty, no whitespace at either end, never two newlines in a row. */
  predicate Tidy(s: string) {
    && |s| > 0 && !IsSpace(s[0]) && !IsSpace(s[|s| - 1])
    && forall i :: 0 <= i < |s| - 1 && s[i] == '\n' ==> s[i + 1] != '\n'
  }

  lemma SolidRowTidy(row: string)
    requires SolidRow(row)
    ensures Tidy(row) && Unbroken(row, "\n")
  {
    forall i | 0 <= i < |row| ensures !SepAt(row + "\n", i, "\n") {
      assert !IsSpace(row[i]);
      assert (row + "\n")[i..i + 1] == [row[i]];
    }
  }

  lemma TidyJoin(a: string, b: string)
    requires Tidy(a) && Tidy(b)
    ensures Tidy(a + "\n" + b)
  {
    var s := a + "\n" + b;
    forall i | 0 <= i < |s| - 1 ensures s[i] == '\n' ==> s[i + 1] != '\n' {
      if i < |a| - 1 {
        assert s[i] == a[i] && s[i + 1] == a[i + 1];
      } else if i == |a| - 1 {
        assert s[i] == a[|a| - 1];
      } else if i == |a| {
        assert s[i + 1] == b[0];
      } else {
        assert s[i] == b[i - |a| - 1] && s[i + 1] == b[i - |a|];
      }
    }
  }

  lemma TidyUnbroken(s: string)
    requires Tidy(s)
    ensures Unbroken(s, "\n\n")
  {
    var t := s + "\n\n";
    forall i | 0 <= i < |s| ensures !SepAt(t, i, "\n\n") {
      assert t[i..i + 2] == [t[i], t[i + 1]];
      if i < |s| - 1 {
        assert t[i] == s[i] && t[i + 1] == s[i + 1];
        assert s[i] != '\n' || s[i + 1] != '\n';
      } else {
        assert t[i] == s[|s| - 1];
      }
    }
  }

  lemma {:induction false} LayerTextTidy(rows: seq<string>)
    requires |rows| > 0
    requires forall y :: 0 <= y < |rows| ==> SolidRow(rows[y])
    ensures Tidy(LayerText(rows))
    decreases |rows|
  {
    SolidRowTidy(rows[0]);
    if |rows| > 1 {
      LayerTextTidy(rows[1..]);
      TidyJoin(rows[0], LayerText(rows[1..]));
    }
  }

  /** A join of non-empty parts starts with the first part's first character
      and ends with the last part's last character. */
  lemma {:induction false} JoinEnds(parts: seq<string>, sep: string)
    requires |parts| > 0
    requires forall i :: 0 <= i < |parts| ==> |parts[i]| > 0
    ensures |Join(parts, sep)| > 0
    ensures Join(parts, sep)[0] == parts[0][0]
    ensures Join(parts, sep)[|Join(parts, sep)| - 1] == parts[|parts| - 1][|parts[|parts| - 1]| - 1]
    decreases |parts|
  {
    if |parts| > 1 {
      JoinEnds(parts[1..], sep);
    }
  }

  /** The split round trip the parser, the validator and the mask lookup all
      depend on: a solid figure is unchanged by stripping, splits back into
      its layer texts on blank lines, and each layer splits back into its
      rows (also after stripping). */
  lemma RenderSplits(layers: seq<seq<string>>)
    requires Solid(layers)
    ensures Strip(Render(layers)) == Render(layers)
    ensures Split(Render(layers), "\n\n") == LayerTexts(layers)
    ensures forall z :: 0 <= z < |layers| ==>
      && Strip(LayerText(layers[z])) == LayerText(layers[z])
      && Split(LayerText(layers[z]), "\n") == layers[z]
  {
    var texts := LayerTexts(layers);
    forall z | 0 <= z < |layers|
      ensures Tidy(texts[z])
      ensures Strip(LayerText(layers[z])) == LayerText(layers[z])
      ensures Split(LayerText(layers[z]), "\n") == layers[z]
    {
      LayerTextTidy(layers[z]);
      forall y | 0 <= y < |layers[z]| ensures Unbroken(layers[z][y], "\n") {
        SolidRowTidy(layers[z][y]);
      }
      SplitJoin(layers[z], "\n");
      StripTrimmed(LayerText(layers[z]));
    }
    forall z | 0 <= z < |texts| ensures Unbroken(texts[z], "\n\n") {
      TidyUnbroken(texts[z]);
    }
    SplitJoin(texts, "\n\n");
    JoinEnds(texts, "\n\n");
    StripTrimmed(Render(layers));
  }

  /** Each layer of a rendering reads back as its rows. */
  lemma RenderedRows(layers: seq<seq<string>>, z: nat)
    requires Solid(layers) && z < |layers|
    ensures LayerRows(LayerTexts(layers)[z]) == layers[z]
  {
    RenderSplits(layers);
  }

  /** What the front end's mask lookup needs of a rendered figure: it is not
      empty, and it splits back into its layers and rows without any
      stripping. */
  lemma MaskSplits(layers: seq<seq<string>>)
    requires Solid(layers)
    ensures |Render(layers)| > 0
    ensures Split(Render(layers), "\n\n") == LayerTexts(layers)
    ensures forall z :: 0 <= z < |layers| ==> Split(LayerTexts(layers)[z], "\n") == layers[z]
  {
    RenderNonEmpty(layers);
    RenderSplits(layers);
  }

  lemma RenderNonEmpty(layers: seq<seq<string>>)
    requires Solid(layers)
    ensures |Render(layers)| > 0
  {
    var texts := LayerTexts(layers);
    forall z | 0 <= z < |layers| ensures |texts[z]| > 0 {
      LayerTextTidy(layers[z]);
    }
    JoinEnds(texts, "\n\n");
  }
}
