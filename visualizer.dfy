/**
 * visualizer.py: pick a random category and subset of the arranged
 * dataset, take ten random variant stems from the partial-cloud listing
 * and load, for each, its partial cloud, complete cloud and occupancy grid.
 * Only the choice of files is modelled; loading and plotting are not.
 */
module Visualizer {
  import opened Wrappers
  import opened Text
  import opened Draws

  /** random.sample(all_variants, 10) */
  const SampleCount: nat := 10

  const PartialSuffix: string := "_x.xyz"
  const CompleteSuffix: string := "_y.xyz"
  const OccupancySuffix: string := ".npy"

  const SubsetNames: seq<string> := ["train", "test"]

  /** [f.replace("_x.xyz", "") for f in listing if f.endswith("_x.xyz")] */
  function Stems(listing: seq<string>): (r: seq<string>)
    ensures |r| == |KeepEndingWith(listing, PartialSuffix)|
  {
    var kept := KeepEndingWith(listing, PartialSuffix);
    seq(|kept|, k requires 0 <= k < |kept| => ReplaceAll(kept[k], PartialSuffix, ""))
  }

  /** Every stem is taken from a listed name ending in _x.xyz. */
  lemma StemsFromPartialFiles(listing: seq<string>, k: nat)
    requires k < |Stems(listing)|
    ensures exists f :: f in listing && EndsWith(f, PartialSuffix) && Stems(listing)[k] == ReplaceAll(f, PartialSuffix, "")
  {
    var f := KeepEndingWith(listing, PartialSuffix)[k];
    assert f in listing && EndsWith(f, PartialSuffix);
  }

  /**
   * When the stem holds no '.', the suffix occurs only once in stem + "_x.xyz"
   * and the replace gives the stem back, so stem + "_x.xyz" (line 76)
   * reconstructs the listed name.
   */
  lemma StemOfPartialName(stem: string)
    requires '.' !in stem
    ensures ReplaceAll(stem + PartialSuffix, PartialSuffix, "") == stem
  {
    ReplaceMarkedSuffix(stem, PartialSuffix, "", 2);
    assert stem + "" == stem;
  }

  /** Every listed partial file contributes its stem. */
  lemma StemsComplete(listing: seq<string>, stem: string)
    requires '.' !in stem && stem + PartialSuffix in listing
    ensures stem in Stems(listing)
  {
    var f := stem + PartialSuffix;
    assert EndsWith(f, PartialSuffix) by {
      assert f[|f| - |PartialSuffix|..] == PartialSuffix;
    }
    KeepEndingWithComplete(listing, PartialSuffix, f);
    var kept := KeepEndingWith(listing, PartialSuffix);
    var k :| 0 <= k < |kept| && kept[k] == f;
    StemOfPartialName(stem);
    assert Stems(listing)[k] == stem;
  }

  /** Every listed name ending in _x.xyz has no '.' before that suffix. */
  predicate PlainPartialNames(listing: seq<string>) {
    forall f :: f in listing && EndsWith(f, PartialSuffix) ==> '.' !in f[..|f| - |PartialSuffix|]
  }

  /** With plainly named partial files, stem + "_x.xyz" is a file of the listing. */
  lemma StemNamesListedFile(listing: seq<string>, k: nat)
    requires PlainPartialNames(listing)
    requires k < |Stems(listing)|
    ensures Stems(listing)[k] + PartialSuffix in listing
  {
    var f := KeepEndingWith(listing, PartialSuffix)[k];
    assert f in listing && EndsWith(f, PartialSuffix);
    var stem := f[..|f| - |PartialSuffix|];
    assert f == stem + PartialSuffix;
    StemOfPartialName(stem);
  }

  /** The directories of one (category, subset) choice (lines 62-64). */
  datatype SubsetDirs = SubsetDirs(partial: string, complete: string, occupancy: string)

  function SubsetDirsOf(baseDir: string, category: string, subset: string): SubsetDirs {
    var inputDir := Join(baseDir, "input");
    var gtDir := Join(baseDir, "gt");
    SubsetDirs(
      Join(Join(inputDir, category), subset),
      Join(Join(gtDir, category), subset),
      Join(Join(gtDir, category), subset))
  }

  /** The three files read, one list per kind, in the order of the chosen stems. */
  datatype Loaded = Loaded(partialPaths: seq<string>, completePaths: seq<string>, occupancyPaths: seq<string>)

  /**
   * The loop of lines 75-88: for each chosen stem, the three paths it
   * appends, so the three lists stay index-aligned.
   */
  method LoadVariants(dirs: SubsetDirs, variants: seq<string>) returns (loaded: Loaded)
    ensures |loaded.partialPaths| == |variants|
    ensures |loaded.completePaths| == |variants|
    ensures |loaded.occupancyPaths| == |variants|
    ensures forall k :: 0 <= k < |variants| ==>
      && loaded.partialPaths[k] == Join(dirs.partial, variants[k] + PartialSuffix)
      && loaded.completePaths[k] == Join(dirs.complete, variants[k] + CompleteSuffix)
      && loaded.occupancyPaths[k] == Join(dirs.occupancy, variants[k] + OccupancySuffix)
  {
    var partialPointsList: seq<string> := [];
    var completePointsList: seq<string> := [];
    var occupancyGridList: seq<string> := [];
    for i := 0 to |variants|
      invariant |partialPointsList| == i && |completePointsList| == i && |occupancyGridList| == i
      invariant forall k :: 0 <= k < i ==>
        && partialPointsList[k] == Join(dirs.partial, variants[k] + PartialSuffix)
        && completePointsList[k] == Join(dirs.complete, variants[k] + CompleteSuffix)
        && occupancyGridList[k] == Join(dirs.occupancy, variants[k] + OccupancySuffix)
    {
      var variant := variants[i];
      var partialPath := Join(dirs.partial, variant + "_x.xyz");
      var completePath := Join(dirs.complete, variant + "_y.xyz");
      var occupancyPath := Join(dirs.occupancy, variant + ".npy");
      partialPointsList := partialPointsList + [partialPath];
      completePointsList := completePointsList + [completePath];
      occupancyGridList := occupancyGridList + [occupancyPath];
    }
    loaded := Loaded(partialPointsList, completePointsList, occupancyGridList);
  }

  /**
   * The errors random_sample_visualization raises: random.choice of an
   * empty category list, os.listdir of a chosen partial directory that does
   * not exist, and random.sample of more stems than exist.
   */
  datatype VisError = NoCategories | MissingSubsetDir | TooFewVariants

  /** [f for f in os.listdir(input_dir) if os.path.isdir(os.path.join(input_dir, f))] */
  function Categories(inputDir: string, entries: seq<string>, isDir: string -> bool): (r: seq<string>)
    ensures forall k :: 0 <= k < |r| ==> r[k] in entries && isDir(Join(inputDir, r[k]))
    decreases |entries|
  {
    if entries == [] then []
    else
      (if isDir(Join(inputDir, entries[0])) then [entries[0]] else [])
        + Categories(inputDir, entries[1..], isDir)
  }

  /** Every listed entry that is a directory is a category. */
  lemma {:induction false} CategoriesComplete(inputDir: string, entries: seq<string>, isDir: string -> bool, f: string)
    requires f in entries && isDir(Join(inputDir, f))
    ensures f in Categories(inputDir, entries, isDir)
    decreases |entries|
  {
    if entries[0] != f {
      CategoriesComplete(inputDir, entries[1..], isDir, f);
    }
  }

  /** The directories of the chosen category and subset. */
  function ChosenDirs(baseDir: string, categories: seq<string>, catChoice: nat, subsetChoice: nat): SubsetDirs
    requires catChoice < |categories| && subsetChoice < |SubsetNames|
  {
    SubsetDirsOf(baseDir, categories[catChoice], SubsetNames[subsetChoice])
  }

  /** random.sample(all_variants, 10) could return these positions: ten distinct ones in range. */
  predicate LegalStemDraw(numStems: nat, draw: seq<nat>) {
    |draw| == SampleCount && InRange(draw, numStems) && Distinct(draw)
  }

  /**
   * random_sample_visualization without the plotting. The filesystem is
   * given as the input directory's entries, an is-directory test and
   * os.listdir, which gives None for a directory that does not exist. The
   * random choices are a category index, a subset index into
   * ["train", "test"] and the ten stem positions, each legal when it is made.
   */
  method RandomSampleVisualization(
    baseDir: string, entries: seq<string>, isDir: string -> bool, listdir: string -> Option<seq<string>>,
    catChoice: nat, subsetChoice: nat, draw: seq<nat>)
    returns (r: Result<(seq<string>, Loaded), VisError>)
    requires |Categories(Join(baseDir, "input"), entries, isDir)| > 0 ==>
      catChoice < |Categories(Join(baseDir, "input"), entries, isDir)|
    requires subsetChoice < |SubsetNames|
    requires |Categories(Join(baseDir, "input"), entries, isDir)| > 0 ==>
      var listing := listdir(ChosenDirs(baseDir, Categories(Join(baseDir, "input"), entries, isDir), catChoice, subsetChoice).partial);
      listing.Some? && |Stems(listing.value)| >= SampleCount ==> LegalStemDraw(|Stems(listing.value)|, draw)
    ensures r == Err(NoCategories) <==> |Categories(Join(baseDir, "input"), entries, isDir)| == 0
    ensures |Categories(Join(baseDir, "input"), entries, isDir)| > 0 ==>
      var listing := listdir(ChosenDirs(baseDir, Categories(Join(baseDir, "input"), entries, isDir), catChoice, subsetChoice).partial);
      && (r == Err(MissingSubsetDir) <==> listing.None?)
      && (r == Err(TooFewVariants) <==> listing.Some? && |Stems(listing.value)| < SampleCount)
    ensures r.Ok? ==>
      var categories := Categories(Join(baseDir, "input"), entries, isDir);
      && |categories| > 0
      && var dirs := ChosenDirs(baseDir, categories, catChoice, subsetChoice);
      && listdir(dirs.partial).Some?
      && var listing := listdir(dirs.partial).value;
      && var chosen := r.value.0;
      && |chosen| == SampleCount
      && chosen == Gather(Stems(listing), draw)
      && multiset(chosen) <= multiset(Stems(listing))
      && (PlainPartialNames(listing) ==> forall k :: 0 <= k < SampleCount ==> chosen[k] + PartialSuffix in listing)
      && |r.value.1.partialPaths| == SampleCount
      && |r.value.1.completePaths| == SampleCount
      && |r.value.1.occupancyPaths| == SampleCount
      && forall k :: 0 <= k < SampleCount ==>
        && r.value.1.partialPaths[k] == Join(dirs.partial, chosen[k] + PartialSuffix)
        && r.value.1.completePaths[k] == Join(dirs.complete, chosen[k] + CompleteSuffix)
        && r.value.1.occupancyPaths[k] == Join(dirs.occupancy, chosen[k] + OccupancySuffix)
  {
    var inputDir := Join(baseDir, "input");
    var categories := Categories(inputDir, entries, isDir);
    if |categories| == 0 {
      return Err(NoCategories);
    }
    var selectedCategory := categories[catChoice];
    var subset := SubsetNames[subsetChoice];
    var dirs := SubsetDirsOf(baseDir, selectedCategory, subset);
    assert dirs == ChosenDirs(baseDir, categories, catChoice, subsetChoice);
    var listing := listdir(dirs.partial);
    if listing.None? {
      return Err(MissingSubsetDir);
    }
    var allVariants := Stems(listing.value);
    if |allVariants| < SampleCount {
      return Err(TooFewVariants);
    }
    var randomVariants := Gather(allVariants, draw);
    ChosenStemsNoRepeats(listing.value, draw);
    if PlainPartialNames(listing.value) {
      forall k | 0 <= k < SampleCount
        ensures randomVariants[k] + PartialSuffix in listing.value
      {
        ChosenPartialFilesListed(listing.value, draw, k);
      }
    }
    var loaded := LoadVariants(dirs, randomVariants);
    r := Ok((randomVariants, loaded));
  }

  /**
   * The ten chosen stems are distinct positions of the stem list: no stem
   * is taken more often than it is listed.
   */
  lemma ChosenStemsNoRepeats(listing: seq<string>, draw: seq<nat>)
    requires LegalStemDraw(|Stems(listing)|, draw)
    ensures |Gather(Stems(listing), draw)| == SampleCount
    ensures multiset(Gather(Stems(listing), draw)) <= multiset(Stems(listing))
  {
    GatherDistinct(Stems(listing), draw);
  }

  /** With plainly named partial files, every chosen stem names a listed partial file. */
  lemma ChosenPartialFilesListed(listing: seq<string>, draw: seq<nat>, k: nat)
    requires PlainPartialNames(listing)
    requires InRange(draw, |Stems(listing)|) && k < |draw|
    ensures Gather(Stems(listing), draw)[k] + PartialSuffix in listing
  {
    StemNamesListedFile(listing, draw[k]);
  }
}
