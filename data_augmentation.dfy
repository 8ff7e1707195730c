/**
 * data_augmentation.py: for every mesh, 700 randomly rotated variants, each
 * giving a partial cloud, a complete cloud and an occupancy grid, written
 * under input/<category>/<train|test> and gt/<category>/<train|test>.
 */
module DataAugmentation {
  import opened Wrappers
  import opened Text
  import opened PointCloud
  import opened Draws

  const NumVariants: nat := 700
  /** Variants with an index below this go to train, the rest to test. */
  const TrainSplit: nat := 600

  /** np.random.choice(0, k) with k > 0 raises ValueError. */
  datatype SampleError = EmptyCandidates

  /**
   * The index arrays np.random.choice can return for the branch that runs:
   * num_points distinct candidate positions when there are more candidates
   * than needed, otherwise num_points - len positions drawn with replacement
   * (no draw is taken when that call raises).
   */
  predicate LegalDraw(sample: seq<Point>, numPoints: nat, draw: seq<nat>) {
    var n := |BottomHalf(sample)|;
    if n > numPoints then |draw| == numPoints && InRange(draw, n) && Distinct(draw)
    else if n == 0 && numPoints > 0 then true
    else |draw| == numPoints - n && InRange(draw, n)
  }

  /**
   * sample_partial_from_mesh: keep the z < 0 rows of the surface sample
   * (sample_surface(mesh, num_points * 8), passed in as `sample`), then
   * subsample them without replacement down to num_points, or keep them all
   * and pad with num_points - len repeats drawn from them.
   */
  function SamplePartialFromMesh(sample: seq<Point>, numPoints: nat, draw: seq<nat>): (r: Result<seq<Point>, SampleError>)
    requires LegalDraw(sample, numPoints, draw)
    ensures r.Err? <==> |BottomHalf(sample)| == 0 && numPoints > 0
    ensures r.Ok? ==> |r.value| == numPoints
    ensures r.Ok? ==> forall k :: 0 <= k < |r.value| ==> r.value[k] in BottomHalf(sample)
  {
    var cands := BottomHalf(sample);
    if |cands| > numPoints then Ok(Gather(cands, draw))
    else if |cands| == 0 && numPoints > 0 then Err(EmptyCandidates)
    else Ok(cands + Gather(cands, draw))
  }

  /** Every point of the partial cloud is one of the surface samples and lies below z = 0. */
  lemma PartialPointsBelow(sample: seq<Point>, numPoints: nat, draw: seq<nat>)
    requires LegalDraw(sample, numPoints, draw)
    ensures var r := SamplePartialFromMesh(sample, numPoints, draw);
      r.Ok? ==> forall k :: 0 <= k < |r.value| ==> Below(r.value[k]) && r.value[k] in sample
  {
  }

  /**
   * With more candidates than num_points the draw is without replacement:
   * no candidate is used more often than it occurs among the candidates.
   */
  lemma PartialSubsampleNoRepeats(sample: seq<Point>, numPoints: nat, draw: seq<nat>)
    requires LegalDraw(sample, numPoints, draw)
    requires |BottomHalf(sample)| > numPoints
    ensures SamplePartialFromMesh(sample, numPoints, draw).Ok?
    ensures multiset(SamplePartialFromMesh(sample, numPoints, draw).value) <= multiset(BottomHalf(sample))
  {
    GatherDistinct(BottomHalf(sample), draw);
  }

  /**
   * With at most num_points candidates the cloud starts with all of them in
   * their original order; with exactly num_points it is the candidate list.
   */
  lemma PartialPadKeepsCandidates(sample: seq<Point>, numPoints: nat, draw: seq<nat>)
    requires LegalDraw(sample, numPoints, draw)
    requires 0 < |BottomHalf(sample)| <= numPoints
    ensures var r := SamplePartialFromMesh(sample, numPoints, draw);
      && r.Ok?
      && r.value[..|BottomHalf(sample)|] == BottomHalf(sample)
      && multiset(BottomHalf(sample)) <= multiset(r.value)
      && (|BottomHalf(sample)| == numPoints ==> r.value == BottomHalf(sample))
  {
    var cands := BottomHalf(sample);
    var r := SamplePartialFromMesh(sample, numPoints, draw);
    assert r.value == cands + Gather(cands, draw);
    assert r.value[..|cands|] == cands;
    assert multiset(r.value) == multiset(cands) + multiset(Gather(cands, draw));
  }

  datatype Subset = Train | Test

  function SubsetName(s: Subset): string {
    match s
    case Train => "train"
    case Test => "test"
  }

  /** The three files written for one variant. */
  datatype FileKind = PartialCloud | CompleteCloud | Occupancy

  /** What follows f"{category_name}_{i}" in each file name. */
  function KindSuffix(kind: FileKind): string {
    match kind
    case PartialCloud => "_x.xyz"
    case CompleteCloud => "_y.xyz"
    case Occupancy => ".npy"
  }

  /** f"{category_name}{suffix}_x.xyz" and its two siblings, with suffix = f"_{i}". */
  function VariantName(category: string, i: nat, kind: FileKind): string {
    category + ("_" + NatToString(i)) + KindSuffix(kind)
  }

  /** The part of a variant name after f"{category_name}_". */
  function VariantTail(i: nat, kind: FileKind): string {
    NatToString(i) + KindSuffix(kind)
  }

  lemma VariantNameSplits(category: string, i: nat, kind: FileKind)
    ensures VariantName(category, i, kind) == category + "_" + VariantTail(i, kind)
  {
  }

  /** The four directories process_mesh_variants creates. */
  datatype SplitDirs = SplitDirs(trainInput: string, testInput: string, trainGt: string, testGt: string)

  function SplitDirsOf(inputDir: string, gtDir: string, category: string): SplitDirs {
    SplitDirs(
      Join(Join(inputDir, category), "train"),
      Join(Join(inputDir, category), "test"),
      Join(Join(gtDir, category), "train"),
      Join(Join(gtDir, category), "test"))
  }

  /** The paths of one variant's three files. */
  datatype VariantFiles = VariantFiles(partial: string, complete: string, occupancy: string)

  /** The paths built at lines 146, 147 and 152: each picks its directory by i < 600. */
  function VariantFilesOf(dirs: SplitDirs, category: string, i: nat): VariantFiles {
    VariantFiles(
      Join(if i < TrainSplit then dirs.trainInput else dirs.testInput, VariantName(category, i, PartialCloud)),
      Join(if i < TrainSplit then dirs.trainGt else dirs.testGt, VariantName(category, i, CompleteCloud)),
      Join(if i < TrainSplit then dirs.trainGt else dirs.testGt, VariantName(category, i, Occupancy)))
  }

  /** The directory of a given subset under input/ or gt/. */
  function SubsetDir(root: string, category: string, s: Subset): string {
    Join(Join(root, category), SubsetName(s))
  }

  function SubsetOf(i: nat): Subset {
    if i < TrainSplit then Train else Test
  }

  /**
   * Routing: variant i lands in train exactly when i < 600, and its partial,
   * complete and occupancy files all land in the same subset.
   */
  lemma VariantRouting(inputDir: string, gtDir: string, category: string, i: nat)
    ensures SubsetOf(i) == Train <==> i < TrainSplit
    ensures var f := VariantFilesOf(SplitDirsOf(inputDir, gtDir, category), category, i);
      && f.partial == Join(SubsetDir(inputDir, category, SubsetOf(i)), VariantName(category, i, PartialCloud))
      && f.complete == Join(SubsetDir(gtDir, category, SubsetOf(i)), VariantName(category, i, CompleteCloud))
      && f.occupancy == Join(SubsetDir(gtDir, category, SubsetOf(i)), VariantName(category, i, Occupancy))
  {
  }

  /** Distinct (variant, kind) pairs get distinct file names. */
  lemma VariantNameInjective(category: string, i: nat, k1: FileKind, j: nat, k2: FileKind)
    ensures VariantName(category, i, k1) == VariantName(category, j, k2) <==> i == j && k1 == k2
  {
    if VariantName(category, i, k1) == VariantName(category, j, k2) {
      var a, b := VariantTail(i, k1), VariantTail(j, k2);
      VariantNameSplits(category, i, k1);
      VariantNameSplits(category, j, k2);
      var pre := category + "_";
      assert a == (pre + a)[|pre|..];
      assert b == (pre + b)[|pre|..];
      VariantTailInjective(i, k1, j, k2);
    }
  }

  lemma VariantTailInjective(i: nat, k1: FileKind, j: nat, k2: FileKind)
    requires VariantTail(i, k1) == VariantTail(j, k2)
    ensures i == j && k1 == k2
  {
    DigitRunCancel(NatToString(i), KindSuffix(k1), NatToString(j), KindSuffix(k2));
    NatToStringInjective(i, j);
  }

  /**
   * Every file written for a category has its own path: two writes for
   * different variants or of different kinds never go to the same file,
   * whatever the directories, as long as the category is a plain file name.
   */
  lemma VariantPathsDistinct(inputDir: string, gtDir: string, category: string, i: nat, k1: FileKind, j: nat, k2: FileKind)
    requires '/' !in category
    requires i != j || k1 != k2
    ensures PathOf(VariantFilesOf(SplitDirsOf(inputDir, gtDir, category), category, i), k1)
         != PathOf(VariantFilesOf(SplitDirsOf(inputDir, gtDir, category), category, j), k2)
  {
    var dirs := SplitDirsOf(inputDir, gtDir, category);
    VariantNameHasNoSlash(category, i, k1);
    VariantNameHasNoSlash(category, j, k2);
    var p1 := PathOf(VariantFilesOf(dirs, category, i), k1);
    var p2 := PathOf(VariantFilesOf(dirs, category, j), k2);
    assert Basename(p1) == VariantName(category, i, k1) by {
      BasenameOfJoin(DirOf(dirs, i, k1), VariantName(category, i, k1));
    }
    assert Basename(p2) == VariantName(category, j, k2) by {
      BasenameOfJoin(DirOf(dirs, j, k2), VariantName(category, j, k2));
    }
    VariantNameInjective(category, i, k1, j, k2);
  }

  function PathOf(f: VariantFiles, kind: FileKind): string {
    match kind
    case PartialCloud => f.partial
    case CompleteCloud => f.complete
    case Occupancy => f.occupancy
  }

  function DirOf(dirs: SplitDirs, i: nat, kind: FileKind): string {
    match kind
    case PartialCloud => if i < TrainSplit then dirs.trainInput else dirs.testInput
    case _ => if i < TrainSplit then dirs.trainGt else dirs.testGt
  }

  lemma VariantNameHasNoSlash(category: string, i: nat, kind: FileKind)
    requires '/' !in category
    ensures '/' !in VariantName(category, i, kind)
  {
    var s := NatToString(i);
    assert forall k :: 0 <= k < |s| ==> s[k] != '/';
  }

  /**
   * process_mesh_variants, without the mesh work: create the four split
   * directories, then for i in range(700) save the variant's three files.
   * Returns the directories created and, per variant, the paths written.
   */
  method ProcessMeshVariants(inputDir: string, gtDir: string, category: string)
    returns (created: seq<string>, written: seq<VariantFiles>)
    ensures var d := SplitDirsOf(inputDir, gtDir, category);
      created == [d.trainInput, d.testInput, d.trainGt, d.testGt]
    ensures |written| == NumVariants
    ensures forall i :: 0 <= i < |written| ==>
      written[i] == VariantFilesOf(SplitDirsOf(inputDir, gtDir, category), category, i)
  {
    var trainInputDir := Join(Join(inputDir, category), "train");
    var testInputDir := Join(Join(inputDir, category), "test");
    var trainGtDir := Join(Join(gtDir, category), "train");
    var testGtDir := Join(Join(gtDir, category), "test");
    created := [trainInputDir, testInputDir, trainGtDir, testGtDir];
    ghost var dirs := SplitDirsOf(inputDir, gtDir, category);
    assert dirs == SplitDirs(trainInputDir, testInputDir, trainGtDir, testGtDir);
    written := [];
    for i := 0 to NumVariants
      invariant |written| == i
      invariant forall k :: 0 <= k < i ==> written[k] == VariantFilesOf(dirs, category, k)
    {
      var suffix := "_" + NatToString(i);
      var inputSplitDir := if i < TrainSplit then trainInputDir else testInputDir;
      var gtSplitDir := if i < TrainSplit then trainGtDir else testGtDir;
      var partialPath := Join(inputSplitDir, category + suffix + "_x.xyz");
      var completePath := Join(gtSplitDir, category + suffix + "_y.xyz");
      var occupancyPath := Join(gtSplitDir, category + suffix + ".npy");
      ghost var files := VariantFiles(partialPath, completePath, occupancyPath);
      assert files == VariantFilesOf(dirs, category, i) by {
        assert partialPath == Join(inputSplitDir, VariantName(category, i, PartialCloud));
        assert completePath == Join(gtSplitDir, VariantName(category, i, CompleteCloud));
        assert occupancyPath == Join(gtSplitDir, VariantName(category, i, Occupancy));
      }
      ghost var before := written;
      written := written + [VariantFiles(partialPath, completePath, occupancyPath)];
      assert forall k :: 0 <= k < i ==> written[k] == before[k];
    }
  }

  /** [f for f in os.listdir(meshes_dir) if f.endswith(".ply")] */
  function MeshFiles(listing: seq<string>): seq<string> {
    KeepEndingWith(listing, ".ply")
  }

  /** mesh_file.replace(".ply", ""): every occurrence is removed, not only the extension. */
  function CategoryName(meshFile: string): string {
    ReplaceAll(meshFile, ".ply", "")
  }

  /** For a file name whose stem holds no '.', the category is exactly that stem. */
  lemma CategoryOfPlyFile(stem: string)
    requires '.' !in stem
    ensures CategoryName(stem + ".ply") == stem
  {
    assert ".ply"[..0] == [];
    ReplaceMarkedSuffix(stem, ".ply", "", 0);
  }

  /** One call of process_mesh_variants made by main. */
  datatype MeshJob = MeshJob(meshPath: string, category: string)

  /**
   * main: for every .ply file in the listing, in listing order, process
   * the mesh at meshes_dir/<file> under the category derived from its name.
   */
  method ProcessAllMeshes(meshesDir: string, listing: seq<string>) returns (jobs: seq<MeshJob>)
    ensures |jobs| == |MeshFiles(listing)|
    ensures forall k :: 0 <= k < |jobs| ==>
      jobs[k] == MeshJob(Join(meshesDir, MeshFiles(listing)[k]), CategoryName(MeshFiles(listing)[k]))
  {
    var meshFiles := MeshFiles(listing);
    jobs := [];
    for k := 0 to |meshFiles|
      invariant |jobs| == k
      invariant forall m :: 0 <= m < k ==>
        jobs[m] == MeshJob(Join(meshesDir, meshFiles[m]), CategoryName(meshFiles[m]))
    {
      var meshFile := meshFiles[k];
      var categoryName := ReplaceAll(meshFile, ".ply", "");
      jobs := jobs + [MeshJob(Join(meshesDir, meshFile), categoryName)];
    }
  }

  /** Only .ply files are processed, and every .ply file of the listing is. */
  lemma MeshFilesArePly(listing: seq<string>, f: string)
    ensures f in MeshFiles(listing) <==> f in listing && EndsWith(f, ".ply")
  {
    if f in listing && EndsWith(f, ".ply") {
      KeepEndingWithComplete(listing, ".ply", f);
    }
  }
}
