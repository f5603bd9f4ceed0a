/**
 * The directory converter `src/scripts/variable_to_static_font_converter.py`: for
 * every `.ttf` entry of a directory, one instance per weight of its fixed table,
 * written under `output/<stem>/` with no existence check and no prompt.
 */
module DirectoryScript {
  import opened PyStr
  import opened FontHost
  import Package

  /** The `weights` dictionary of `process_fonts_in_directory`, in its order. */
  const Weights: seq<(string, int)> := [
    ("Thin", 100), ("ExtraLight", 200), ("Light", 300), ("Regular", 400), ("Medium", 500),
    ("SemiBold", 600), ("Bold", 700), ("ExtraBold", 800), ("Black", 900)]

  /** Nine distinct names, the values going up from 100 to 900 in steps of 100. */
  lemma WeightTable()
    ensures |Weights| == 9
    ensures forall i :: 0 <= i < |Weights| ==> Weights[i].1 == 100 * (i + 1)
    ensures forall i, j :: 0 <= i < j < |Weights| ==> Weights[i].0 != Weights[j].0
  {
  }

  /** `os.path.join(output_dir, f"{stem}-{weight_name}.ttf")`. */
  function InstancePath(h: Host, inputFont: string, outputDir: string, weight: string): string
  {
    JoinPath(outputDir, h.stemOf(inputFont) + "-" + weight + ".ttf")
  }

  /** The instances `create_static_fonts` attempts for a font that loads, in the table's order. */
  function Instances(h: Host, inputFont: string, outputDir: string, weights: seq<(string, int)>): seq<Package.Action>
  {
    if weights == [] then []
    else
      var (w, v) := weights[|weights| - 1];
      Instances(h, inputFont, outputDir, weights[..|weights| - 1])
        + [Package.Instance(inputFont, Package.Target(w, v, InstancePath(h, inputFont, outputDir, w)))]
  }

  /** One attempt per weight, in order, each at `{output_dir}/{stem}-{weight}.ttf`. */
  lemma {:induction false} InstancesPerWeight(h: Host, inputFont: string, outputDir: string, weights: seq<(string, int)>, i: nat)
    requires i < |weights|
    ensures |Instances(h, inputFont, outputDir, weights)| == |weights|
    ensures Instances(h, inputFont, outputDir, weights)[i] ==
      Package.Instance(inputFont, Package.Target(weights[i].0, weights[i].1, InstancePath(h, inputFont, outputDir, weights[i].0)))
  {
    var init := weights[..|weights| - 1];
    if i < |init| {
      InstancesPerWeight(h, inputFont, outputDir, init, i);
    } else if init != [] {
      InstancesPerWeight(h, inputFont, outputDir, init, 0);
    }
  }

  /** Every instance attempted for a font is an instance of that font. */
  lemma {:induction false} InstancesOfFont(h: Host, inputFont: string, outputDir: string, weights: seq<(string, int)>)
    ensures forall a :: a in Instances(h, inputFont, outputDir, weights) ==> a.font == inputFont
  {
    if weights != [] {
      InstancesOfFont(h, inputFont, outputDir, weights[..|weights| - 1]);
    }
  }

  /** What converting one font attempts: nothing when it does not load, every weight otherwise. */
  function Conversion(h: Host, inputFont: string, outputDir: string, weights: seq<(string, int)>): seq<Package.Action>
  {
    if h.probe(inputFont) == Unloadable then [] else Instances(h, inputFont, outputDir, weights)
  }

  /**
   * `create_static_fonts(input_font, output_dir, weights)`. A failed instance is caught
   * per weight and the loop goes on; a font that does not load is caught once.
   */
  method CreateStaticFonts(h: Host, inputFont: string, outputDir: string, weights: seq<(string, int)>)
    returns (actions: seq<Package.Action>)
    ensures actions == Conversion(h, inputFont, outputDir, weights)
  {
    actions := [];
    if h.probe(inputFont) == Unloadable {
      return;
    }
    for k := 0 to |weights|
      invariant actions == Instances(h, inputFont, outputDir, weights[..k])
    {
      var (weightName, weightValue) := weights[k];
      var outputPath := JoinPath(outputDir, h.stemOf(inputFont) + "-" + weightName + ".ttf");
      assert weights[..k + 1][..k] == weights[..k];
      actions := actions + [Package.Instance(inputFont, Package.Target(weightName, weightValue, outputPath))];
    }
    assert weights[..|weights|] == weights;
  }

  /** `os.path.join(font_dir, 'output', os.path.splitext(filename)[0])`. */
  function OutputDir(h: Host, fontDir: string, filename: string): string
  {
    JoinPath(JoinPath(fontDir, "output"), h.stemOf(filename))
  }

  /** The output directories created and the instances attempted for the `.ttf` entries of `fontDir`. */
  function DirectoryRun(h: Host, fontDir: string, entries: seq<string>): (r: (seq<string>, seq<Package.Action>))
    ensures forall a :: a in r.1 ==> exists e :: e in entries && Package.IsTtf(e) && a.font == JoinPath(fontDir, e)
    ensures forall d :: d in r.0 ==> exists e :: e in entries && Package.IsTtf(e) && d == OutputDir(h, fontDir, e)
  {
    if entries == [] then ([], [])
    else
      var init := entries[..|entries| - 1];
      var filename := entries[|entries| - 1];
      var (dirs, actions) := DirectoryRun(h, fontDir, init);
      assert forall e :: e in init ==> e in entries;
      if Package.IsTtf(filename) then
        var inputFont := JoinPath(fontDir, filename);
        var outputDir := OutputDir(h, fontDir, filename);
        var conv := Conversion(h, inputFont, outputDir, Weights);
        InstancesOfFont(h, inputFont, outputDir, Weights);
        (dirs + [outputDir], actions + conv)
      else (dirs, actions)
  }

  /** Every `.ttf` entry gets its output directory and every attempt of its conversion. */
  lemma {:induction false} EveryTtfEntryConverted(h: Host, fontDir: string, entries: seq<string>, e: string)
    requires e in entries && Package.IsTtf(e)
    ensures OutputDir(h, fontDir, e) in DirectoryRun(h, fontDir, entries).0
    ensures forall a :: a in Conversion(h, JoinPath(fontDir, e), OutputDir(h, fontDir, e), Weights) ==> a in DirectoryRun(h, fontDir, entries).1
  {
    var init := entries[..|entries| - 1];
    if e != entries[|entries| - 1] {
      assert entries == init + [entries[|entries| - 1]];
      EveryTtfEntryConverted(h, fontDir, init, e);
    }
  }

  /** `process_fonts_in_directory(font_dir)` over the listing `entries` of the directory. */
  method ProcessFontsInDirectory(h: Host, fontDir: string, entries: seq<string>)
    returns (outputDirs: seq<string>, actions: seq<Package.Action>)
    ensures (outputDirs, actions) == DirectoryRun(h, fontDir, entries)
  {
    outputDirs, actions := [], [];
    for k := 0 to |entries|
      invariant (outputDirs, actions) == DirectoryRun(h, fontDir, entries[..k])
    {
      var filename := entries[k];
      assert entries[..k + 1][..k] == entries[..k];
      if EndsWith(Lower(filename), ".ttf") {
        var inputFont := JoinPath(fontDir, filename);
        var outputDir := JoinPath(JoinPath(fontDir, "output"), h.stemOf(filename));
        outputDirs := outputDirs + [outputDir];
        var created := CreateStaticFonts(h, inputFont, outputDir, Weights);
        actions := actions + created;
      }
    }
    assert entries[..|entries|] == entries;
  }

  /**
   * With a directory path that does not end in a separator and a stem that neither
   * starts nor ends with one, an instance of `f` is written to
   * `{font_dir}/output/{stem}/{stem}-{weight}.ttf`.
   */
  lemma {:induction false} OutputLayout(h: Host, fontDir: string, f: string, weight: string)
    requires fontDir != [] && fontDir[|fontDir| - 1] != '/'
    requires h.stemOf(f) != [] && h.stemOf(f)[0] != '/' && h.stemOf(f)[|h.stemOf(f)| - 1] != '/'
    requires h.stemOf(JoinPath(fontDir, f)) == h.stemOf(f)
    ensures var b := h.stemOf(f);
      InstancePath(h, JoinPath(fontDir, f), OutputDir(h, fontDir, f), weight) ==
        fontDir + "/output/" + b + "/" + b + "-" + weight + ".ttf"
  {
    var b := h.stemOf(f);
    var out := JoinPath(fontDir, "output");
    assert out == fontDir + "/output";
    var dir := JoinPath(out, b);
    assert dir == fontDir + "/output/" + b;
    assert dir[|dir| - 1] == b[|b| - 1];
    var name := b + "-" + weight + ".ttf";
    assert name[0] == b[0];
  }
}
