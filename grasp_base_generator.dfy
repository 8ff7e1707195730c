/**
 * grasp_base_generator.py: for every folder of the grasp database holding
 * meshes/<folder>_scaled.ply, one complete cloud, one partial cloud and one
 * occupancy grid, then 700 rotated variants of them, all written under
 * processed/.
 */
module GraspBaseGenerator {
  import opened Text
  import opened PointCloud
  import opened Draws

  const NumPartialPoints: nat := 2048
  const NumVariants: nat := 700

  function Min(a: nat, b: nat): nat {
    if a < b then a else b
  }

  /**
   * The draw np.random.choice(len, 2048, replace=False) returns when there
   * are at least 2048 candidates (no draw is taken otherwise).
   */
  predicate LegalDraw(sample: seq<Point>, draw: seq<nat>) {
    var n := |BottomHalf(sample)|;
    n < NumPartialPoints || (|draw| == NumPartialPoints && InRange(draw, n) && Distinct(draw))
  }

  /** The two clouds generate_point_clouds returns. */
  datatype Clouds = Clouds(complete: seq<Point>, partial: seq<Point>)

  /**
   * generate_point_clouds: the surface sample (sample_surface(mesh, 8192),
   * passed in) is the complete cloud; its z < 0 rows, subsampled to 2048
   * without replacement when there are that many, are the partial cloud.
   */
  function GeneratePointClouds(sample: seq<Point>, draw: seq<nat>): (r: Clouds)
    requires LegalDraw(sample, draw)
    ensures r.complete == sample
    ensures |r.partial| == Min(|BottomHalf(sample)|, NumPartialPoints)
    ensures forall k :: 0 <= k < |r.partial| ==> Below(r.partial[k]) && r.partial[k] in r.complete
  {
    var partialPoints := BottomHalf(sample);
    if |partialPoints| < NumPartialPoints then Clouds(sample, partialPoints)
    else Clouds(sample, Gather(partialPoints, draw))
  }

  /**
   * The partial cloud never repeats a candidate: it is all of them when
   * there are fewer than 2048, and a sub-multiset of them otherwise.
   */
  lemma PartialIsSubMultiset(sample: seq<Point>, draw: seq<nat>)
    requires LegalDraw(sample, draw)
    ensures multiset(GeneratePointClouds(sample, draw).partial) <= multiset(BottomHalf(sample))
    ensures |BottomHalf(sample)| < NumPartialPoints ==> GeneratePointClouds(sample, draw).partial == BottomHalf(sample)
  {
    if |BottomHalf(sample)| >= NumPartialPoints {
      GatherDistinct(BottomHalf(sample), draw);
    }
  }

  /** The three outputs of one mesh or of one variant. */
  datatype OutputFiles = OutputFiles(complete: string, partial: string, occupancy: string)

  /** The four output directories (lines 10-13). */
  datatype OutputDirs = OutputDirs(complete: string, partial: string, occupancy: string, variant: string)

  function OutputDirsOf(outputDir: string): OutputDirs {
    OutputDirs(
      Join(outputDir, "complete_pcs"),
      Join(outputDir, "partial_pcs"),
      Join(outputDir, "occupancy_grids"),
      Join(outputDir, "variants"))
  }

  /** The un-rotated outputs of mesh `name`. */
  function BaseFiles(dirs: OutputDirs, name: string): OutputFiles {
    OutputFiles(
      Join(dirs.complete, name + "_complete.xyz"),
      Join(dirs.partial, name + "_partial.xyz"),
      Join(dirs.occupancy, name + "_occupancy.npy"))
  }

  datatype Kind = CompleteCloud | PartialCloud | OccupancyGrid

  /** What precedes the variant index in the file name. */
  function KindInfix(kind: Kind): string {
    match kind
    case CompleteCloud => "_complete_variant_"
    case PartialCloud => "_partial_variant_"
    case OccupancyGrid => "_occupancy_variant_"
  }

  /** What follows the variant index. */
  function KindExt(kind: Kind): string {
    match kind
    case OccupancyGrid => ".npy"
    case _ => ".xyz"
  }

  /** f"{mesh_name}_complete_variant_{i}.xyz" and its two siblings. */
  function VariantName(name: string, kind: Kind, i: nat): string {
    name + VariantTail(kind, i)
  }

  /** The part of a variant's file name after the mesh name. */
  function VariantTail(kind: Kind, i: nat): string {
    KindInfix(kind) + (NatToString(i) + KindExt(kind))
  }

  function VariantFiles(dirs: OutputDirs, name: string, i: nat): OutputFiles {
    OutputFiles(
      Join(dirs.variant, VariantName(name, CompleteCloud, i)),
      Join(dirs.variant, VariantName(name, PartialCloud, i)),
      Join(dirs.variant, VariantName(name, OccupancyGrid, i)))
  }

  /** The second letter of the infix tells the kinds apart. */
  lemma KindFromTail(k1: Kind, i: nat, k2: Kind, j: nat)
    requires VariantTail(k1, i) == VariantTail(k2, j)
    ensures k1 == k2
  {
    assert VariantTail(k1, i)[1] == KindInfix(k1)[1];
    assert VariantTail(k2, j)[1] == KindInfix(k2)[1];
  }

  lemma VariantTailInjective(k: Kind, i: nat, j: nat)
    requires VariantTail(k, i) == VariantTail(k, j)
    ensures i == j
  {
    var infix := KindInfix(k);
    var a := NatToString(i) + KindExt(k);
    var b := NatToString(j) + KindExt(k);
    assert a == VariantTail(k, i)[|infix|..];
    assert b == VariantTail(k, j)[|infix|..];
    DigitRunCancel(NatToString(i), KindExt(k), NatToString(j), KindExt(k));
    NatToStringInjective(i, j);
  }

  /** All variants share one directory, and no two (kind, index) pairs share a file name there. */
  lemma VariantNamesDistinct(name: string, k1: Kind, i: nat, k2: Kind, j: nat)
    ensures VariantName(name, k1, i) == VariantName(name, k2, j) <==> k1 == k2 && i == j
  {
    if VariantName(name, k1, i) == VariantName(name, k2, j) {
      assert VariantTail(k1, i) == VariantName(name, k1, i)[|name|..];
      assert VariantTail(k2, j) == VariantName(name, k2, j)[|name|..];
      KindFromTail(k1, i, k2, j);
      VariantTailInjective(k1, i, j);
    }
  }

  /** Distinct variants (and distinct kinds of one variant) are written to distinct paths. */
  lemma VariantPathsDistinct(outputDir: string, name: string, k1: Kind, i: nat, k2: Kind, j: nat)
    requires '/' !in name
    requires k1 != k2 || i != j
    ensures Join(OutputDirsOf(outputDir).variant, VariantName(name, k1, i))
         != Join(OutputDirsOf(outputDir).variant, VariantName(name, k2, j))
  {
    VariantNamesDistinct(name, k1, i, k2, j);
    JoinInjective(OutputDirsOf(outputDir).variant, VariantName(name, k1, i), VariantName(name, k2, j));
  }

  /** [f(0), ..., f(n - 1)], built the way a `for i in range(n)` loop appends. */
  function Tabulate<T>(f: nat -> T, n: nat): (r: seq<T>)
    ensures |r| == n
  {
    if n == 0 then [] else Tabulate(f, n - 1) + [f(n - 1)]
  }

  lemma {:induction false} TabulateAt<T>(f: nat -> T, n: nat, i: nat)
    requires i < n
    ensures Tabulate(f, n)[i] == f(i)
  {
    if i < n - 1 {
      TabulateAt(f, n - 1, i);
    }
  }

  /** The three f-string names of lines 103-105 are the variant names. */
  lemma VariantNamesSpelled(name: string, i: nat)
    ensures VariantName(name, CompleteCloud, i) == name + "_complete_variant_" + NatToString(i) + ".xyz"
    ensures VariantName(name, PartialCloud, i) == name + "_partial_variant_" + NatToString(i) + ".xyz"
    ensures VariantName(name, OccupancyGrid, i) == name + "_occupancy_variant_" + NatToString(i) + ".npy"
  {
    var n := NatToString(i);
    Regroup(name, "_complete_variant_", n, ".xyz");
    Regroup(name, "_partial_variant_", n, ".xyz");
    Regroup(name, "_occupancy_variant_", n, ".npy");
  }

  /** How an f-string groups its pieces and how VariantName does. */
  lemma Regroup(a: string, b: string, c: string, d: string)
    ensures a + b + c + d == a + (b + (c + d))
  {
  }

  /**
   * process_mesh, without the mesh work: the two clouds of the mesh, the
   * paths of its own three files and, for i in range(700), the paths of
   * each rotated variant's three files.
   */
  method ProcessMesh(outputDir: string, name: string, sample: seq<Point>, draw: seq<nat>)
    returns (clouds: Clouds, base: OutputFiles, variants: seq<OutputFiles>)
    requires LegalDraw(sample, draw)
    ensures clouds == GeneratePointClouds(sample, draw)
    ensures base == BaseFiles(OutputDirsOf(outputDir), name)
    ensures |variants| == NumVariants
    ensures forall i :: 0 <= i < NumVariants ==> variants[i] == VariantFiles(OutputDirsOf(outputDir), name, i)
  {
    var dirs := OutputDirsOf(outputDir);
    clouds := GeneratePointClouds(sample, draw);
    base := BaseFiles(dirs, name);
    variants := [];
    ghost var plan := (k: nat) => VariantFiles(dirs, name, k);
    for i := 0 to NumVariants
      invariant variants == Tabulate(plan, i)
    {
      var n := NatToString(i);
      var completeName := name + "_complete_variant_" + n + ".xyz";
      var partialName := name + "_partial_variant_" + n + ".xyz";
      var occupancyName := name + "_occupancy_variant_" + n + ".npy";
      VariantNamesSpelled(name, i);
      var completeFile := Join(dirs.variant, completeName);
      var partialFile := Join(dirs.variant, partialName);
      var occupancyFile := Join(dirs.variant, occupancyName);
      assert OutputFiles(completeFile, partialFile, occupancyFile) == plan(i);
      variants := variants + [OutputFiles(completeFile, partialFile, occupancyFile)];
    }
    forall i | 0 <= i < NumVariants
      ensures variants[i] == VariantFiles(dirs, name, i)
    {
      TabulateAt(plan, NumVariants, i);
    }
  }

  /** base_dir/<folder>/meshes, the directory that must exist. */
  function MeshFolder(base: string, folder: string): string {
    Join(Join(base, folder), "meshes")
  }

  /** base_dir/<folder>/meshes/<folder>_scaled.ply, the file that must exist. */
  function MeshFile(base: string, folder: string): string {
    Join(MeshFolder(base, folder), folder + "_scaled.ply")
  }

  /** One call of process_mesh(mesh_name, mesh_path). */
  datatype MeshJob = MeshJob(name: string, meshPath: string)

  /** The folders of the listing that process_dataset processes, in listing order. */
  function DatasetJobs(base: string, folders: seq<string>, dirs: set<string>, files: set<string>): (r: seq<MeshJob>)
    ensures |r| <= |folders|
    ensures forall k :: 0 <= k < |r| ==> r[k].meshPath == MeshFile(base, r[k].name) && r[k].meshPath in files
    decreases |folders|
  {
    if folders == [] then []
    else
      var folder := folders[|folders| - 1];
      DatasetJobs(base, folders[..|folders| - 1], dirs, files)
        + (if MeshFolder(base, folder) in dirs && MeshFile(base, folder) in files
           then [MeshJob(folder, MeshFile(base, folder))] else [])
  }

  /** A folder is processed exactly when its meshes directory and its scaled mesh both exist. */
  lemma {:induction false} DatasetJobsSpec(base: string, folders: seq<string>, dirs: set<string>, files: set<string>, job: MeshJob)
    ensures job in DatasetJobs(base, folders, dirs, files) <==>
      && job.name in folders
      && job.meshPath == MeshFile(base, job.name)
      && MeshFolder(base, job.name) in dirs
      && job.meshPath in files
    decreases |folders|
  {
    if folders != [] {
      var init := folders[..|folders| - 1];
      DatasetJobsSpec(base, init, dirs, files, job);
      assert folders == init + [folders[|folders| - 1]];
    }
  }

  /**
   * process_dataset: for each entry of os.listdir(base_dir), process its
   * scaled mesh when base/<folder>/meshes is a directory (`dirs`) and the
   * mesh is a file (`files`).
   */
  method ProcessDataset(base: string, folders: seq<string>, dirs: set<string>, files: set<string>)
    returns (jobs: seq<MeshJob>)
    ensures jobs == DatasetJobs(base, folders, dirs, files)
  {
    jobs := [];
    for i := 0 to |folders|
      invariant jobs == DatasetJobs(base, folders[..i], dirs, files)
    {
      var folder := folders[i];
      assert folders[..i + 1][..i] == folders[..i];
      var meshFolder := Join(Join(base, folder), "meshes");
      if meshFolder in dirs {
        var meshFile := Join(meshFolder, folder + "_scaled.ply");
        if meshFile in files {
          jobs := jobs + [MeshJob(folder, meshFile)];
        }
      }
    }
    assert folders[..|folders|] == folders;
  }
}
