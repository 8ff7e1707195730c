/**
 * How the scripts fit together: data_augmentation.py writes the variants
 * of each category into <root>/input and <root>/gt, visualizer.py reads
 * them back from the same directories by stem, and rename.py strips the
 * category prefix, after which the visualiser's pairing still holds.
 */
module Pipeline {
  import opened Wrappers
  import opened Text
  import DataAugmentation
  import Rename
  import Visualizer

  /** The visualiser's partial-cloud suffix is the generator's, for each kind. */
  function VisualizerSuffix(kind: DataAugmentation.FileKind): string {
    match kind
    case PartialCloud => Visualizer.PartialSuffix
    case CompleteCloud => Visualizer.CompleteSuffix
    case Occupancy => Visualizer.OccupancySuffix
  }

  lemma SuffixesAgree(kind: DataAugmentation.FileKind)
    ensures VisualizerSuffix(kind) == DataAugmentation.KindSuffix(kind)
    ensures Rename.GeneratedSuffix(DataAugmentation.KindSuffix(kind))
  {
  }

  /**
   * Variant i of a category lands in the subset directories the visualiser
   * reads when it picks that category and subset: its partial cloud under
   * input/<category>/<subset>, its complete cloud and grid under
   * gt/<category>/<subset>.
   */
  lemma VisualizerReadsGeneratorDirs(baseDir: string, category: string, i: nat)
    ensures var inputDir := Join(baseDir, "input");
            var gtDir := Join(baseDir, "gt");
            var s := DataAugmentation.SubsetOf(i);
            var files := DataAugmentation.VariantFilesOf(DataAugmentation.SplitDirsOf(inputDir, gtDir, category), category, i);
            var dirs := Visualizer.SubsetDirsOf(baseDir, category, DataAugmentation.SubsetName(s));
            && DataAugmentation.SubsetName(s) in Visualizer.SubsetNames
            && files.partial == Join(dirs.partial, DataAugmentation.VariantName(category, i, DataAugmentation.PartialCloud))
            && files.complete == Join(dirs.complete, DataAugmentation.VariantName(category, i, DataAugmentation.CompleteCloud))
            && files.occupancy == Join(dirs.occupancy, DataAugmentation.VariantName(category, i, DataAugmentation.Occupancy))
  {
    DataAugmentation.VariantRouting(Join(baseDir, "input"), Join(baseDir, "gt"), category, i);
  }

  /** The stem the visualiser reads for variant i before the rename. */
  function GeneratedStem(category: string, i: nat): string {
    category + "_" + NatToString(i)
  }

  /**
   * Before the rename: the generated partial file of variant i yields the
   * stem <category>_<i>, and that stem's three paired names are exactly the
   * three names the generator wrote for variant i.
   */
  lemma PairingMatchesGenerator(category: string, i: nat, kind: DataAugmentation.FileKind)
    requires '.' !in category
    ensures DataAugmentation.VariantName(category, i, DataAugmentation.PartialCloud)
         == GeneratedStem(category, i) + Visualizer.PartialSuffix
    ensures ReplaceAll(DataAugmentation.VariantName(category, i, DataAugmentation.PartialCloud), Visualizer.PartialSuffix, "")
         == GeneratedStem(category, i)
    ensures GeneratedStem(category, i) + VisualizerSuffix(kind) == DataAugmentation.VariantName(category, i, kind)
  {
    var stem := GeneratedStem(category, i);
    GeneratedStemHasNoDot(category, i);
    Visualizer.StemOfPartialName(stem);
    StemPlusSuffix(category, i, DataAugmentation.PartialCloud);
    StemPlusSuffix(category, i, kind);
  }

  lemma StemPlusSuffix(category: string, i: nat, kind: DataAugmentation.FileKind)
    ensures GeneratedStem(category, i) + VisualizerSuffix(kind) == DataAugmentation.VariantName(category, i, kind)
  {
    SuffixesAgree(kind);
    assert category + "_" + NatToString(i) + DataAugmentation.KindSuffix(kind)
        == category + ("_" + NatToString(i)) + DataAugmentation.KindSuffix(kind);
  }

  lemma GeneratedStemHasNoDot(category: string, i: nat)
    requires '.' !in category
    ensures '.' !in GeneratedStem(category, i)
  {
    var n := NatToString(i);
    assert forall k :: 0 <= k < |n| ==> IsDigit(n[k]);
    assert '.' !in n;
    assert GeneratedStem(category, i) == category + ("_" + n);
  }

  /**
   * rename.py maps each generated name to the name without its category
   * prefix: <category>_<i>_x.xyz to <i>_x.xyz and so on.
   */
  lemma RenameStripsCategory(category: string, i: nat, kind: DataAugmentation.FileKind)
    requires '.' !in category
    ensures Rename.RenameTarget(DataAugmentation.VariantName(category, i, kind))
         == Some(DataAugmentation.VariantTail(i, kind))
  {
    var n, sfx := NatToString(i), DataAugmentation.KindSuffix(kind);
    var name := DataAugmentation.VariantName(category, i, kind);
    assert name == category + "_" + n + sfx;
    SuffixesAgree(kind);
    Rename.RenameGeneratedName(category, i, sfx);
    assert DataAugmentation.VariantTail(i, kind) == n + sfx;
  }

  /** After the rename, distinct files of one subset directory still have distinct names. */
  lemma RenamedNamesDistinct(category: string, i: nat, k1: DataAugmentation.FileKind, j: nat, k2: DataAugmentation.FileKind)
    requires '.' !in category
    requires i != j || k1 != k2
    ensures Rename.RenameTarget(DataAugmentation.VariantName(category, i, k1))
         != Rename.RenameTarget(DataAugmentation.VariantName(category, j, k2))
  {
    RenameStripsCategory(category, i, k1);
    RenameStripsCategory(category, j, k2);
    if DataAugmentation.VariantTail(i, k1) == DataAugmentation.VariantTail(j, k2) {
      DataAugmentation.VariantTailInjective(i, k1, j, k2);
    }
  }

  /**
   * After the rename: the renamed partial file of variant i yields the stem
   * <i>, and that stem's three paired names are exactly the renamed names
   * of variant i's three files.
   */
  lemma PairingMatchesRenamed(category: string, i: nat, kind: DataAugmentation.FileKind)
    requires '.' !in category
    ensures ReplaceAll(DataAugmentation.VariantTail(i, DataAugmentation.PartialCloud), Visualizer.PartialSuffix, "")
         == NatToString(i)
    ensures Rename.RenameTarget(DataAugmentation.VariantName(category, i, kind))
         == Some(NatToString(i) + VisualizerSuffix(kind))
  {
    var stem := NatToString(i);
    assert '.' !in stem by {
      assert forall k :: 0 <= k < |stem| ==> IsDigit(stem[k]);
    }
    Visualizer.StemOfPartialName(stem);
    RenameStripsCategory(category, i, kind);
    SuffixesAgree(kind);
  }
}
