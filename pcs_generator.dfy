/**
 * pcs_generator.py: for every .ply mesh of the YCB directory, a complete
 * cloud and a bottom-half partial cloud written as text (one "x y z" line
 * per point), plus an occupancy grid, each under the name of the mesh.
 */
module PcsGenerator {
  import opened Text
  import opened PointCloud
  import opened Draws

  /**
   * The draw np.random.choice(n, numPartial, replace=False) returns when
   * there are at least numPartial bottom-half points (none is taken
   * otherwise).
   */
  predicate LegalDraw(points: seq<Point>, numPartial: nat, draw: seq<nat>) {
    var n := |BottomHalf(points)|;
    n < numPartial || (|draw| == numPartial && InRange(draw, n) && Distinct(draw))
  }

  /**
   * sample_partial_from_bottom: the z < 0 rows of `points`, all of them when
   * there are fewer than numPartial, otherwise numPartial of them drawn
   * without replacement.
   */
  function SamplePartialFromBottom(points: seq<Point>, numPartial: nat, draw: seq<nat>): (r: seq<Point>)
    requires LegalDraw(points, numPartial, draw)
    ensures |r| == if |BottomHalf(points)| < numPartial then |BottomHalf(points)| else numPartial
    ensures forall k :: 0 <= k < |r| ==> Below(r[k]) && r[k] in points
  {
    var bottomHalfPoints := BottomHalf(points);
    if |bottomHalfPoints| < numPartial then bottomHalfPoints
    else Gather(bottomHalfPoints, draw)
  }

  /**
   * No bottom-half point is taken twice; with fewer candidates than asked
   * for the result is the candidates in order, and with exactly as many it
   * is a permutation of them.
   */
  lemma SamplePartialNoRepeats(points: seq<Point>, numPartial: nat, draw: seq<nat>)
    requires LegalDraw(points, numPartial, draw)
    ensures multiset(SamplePartialFromBottom(points, numPartial, draw)) <= multiset(BottomHalf(points))
    ensures |BottomHalf(points)| < numPartial ==> SamplePartialFromBottom(points, numPartial, draw) == BottomHalf(points)
    ensures |BottomHalf(points)| == numPartial ==>
      multiset(SamplePartialFromBottom(points, numPartial, draw)) == multiset(BottomHalf(points))
  {
    var cands := BottomHalf(points);
    if |cands| >= numPartial {
      GatherDistinct(cands, draw);
      if |cands| == numPartial {
        SubMultisetOfSameSize(Gather(cands, draw), cands);
      }
    }
  }

  /**
   * f"{point[0]} {point[1]} {point[2]}" without its newline; `fmt` is
   * Python's float-to-text conversion, left abstract.
   */
  function LineBody(p: Point, fmt: real -> string): string {
    fmt(p.x) + " " + fmt(p.y) + " " + fmt(p.z)
  }

  /** The line written for one point. */
  function PointLine(p: Point, fmt: real -> string): string {
    LineBody(p, fmt) + "\n"
  }

  /** The file's text after the writer loop: the lines of the points, in order. */
  function CloudText(points: seq<Point>, fmt: real -> string): string
    decreases |points|
  {
    if points == [] then "" else PointLine(points[0], fmt) + CloudText(points[1..], fmt)
  }

  lemma {:induction false} CloudTextAppend(points: seq<Point>, p: Point, fmt: real -> string)
    ensures CloudText(points + [p], fmt) == CloudText(points, fmt) + PointLine(p, fmt)
    decreases |points|
  {
    if points == [] {
      assert CloudText([p], fmt) == PointLine(p, fmt) + CloudText([], fmt);
    } else {
      assert (points + [p])[1..] == points[1..] + [p];
      CloudTextAppend(points[1..], p, fmt);
    }
  }

  /**
   * The `with open(path, 'w')` block: for point in points, write its line.
   * Returns the text the file then holds.
   */
  method WriteCloud(points: seq<Point>, fmt: real -> string) returns (text: string)
    ensures text == CloudText(points, fmt)
  {
    text := "";
    for i := 0 to |points|
      invariant text == CloudText(points[..i], fmt)
    {
      var point := points[i];
      assert points[..i + 1] == points[..i] + [point];
      CloudTextAppend(points[..i], point, fmt);
      text := text + (fmt(point.x) + " " + fmt(point.y) + " " + fmt(point.z) + "\n");
    }
    assert points[..|points|] == points;
  }

  /** Float-to-text output never holds a space or a newline. */
  ghost predicate FieldSafe(fmt: real -> string) {
    forall x: real :: ' ' !in fmt(x) && '\n' !in fmt(x)
  }

  /** The three fields of one line. */
  lemma LineFields(p: Point, fmt: real -> string)
    requires FieldSafe(fmt)
    ensures Split(LineBody(p, fmt), ' ') == [fmt(p.x), fmt(p.y), fmt(p.z)]
  {
    assert ' ' !in fmt(p.x) && ' ' !in fmt(p.y) && ' ' !in fmt(p.z);
    SplitWithout(fmt(p.z), ' ');
    SplitFirst(fmt(p.y), ' ', fmt(p.z));
    SplitFirst(fmt(p.x), ' ', fmt(p.y) + " " + fmt(p.z));
    assert LineBody(p, fmt) == fmt(p.x) + [' '] + (fmt(p.y) + [' '] + fmt(p.z));
  }

  /**
   * The written text is exactly one newline-terminated line per point, in
   * point order: split at '\n' it gives the line bodies and then the empty
   * text after the last newline, and every body has the point's three
   * coordinates as its space-separated fields.
   */
  lemma {:induction false} CloudTextLines(points: seq<Point>, fmt: real -> string)
    requires FieldSafe(fmt)
    ensures |Split(CloudText(points, fmt), '\n')| == |points| + 1
    ensures forall k :: 0 <= k < |points| ==> Split(CloudText(points, fmt), '\n')[k] == LineBody(points[k], fmt)
    ensures Split(CloudText(points, fmt), '\n')[|points|] == ""
    ensures forall k :: 0 <= k < |points| ==>
      Split(Split(CloudText(points, fmt), '\n')[k], ' ') == [fmt(points[k].x), fmt(points[k].y), fmt(points[k].z)]
    decreases |points|
  {
    if points == [] {
    } else {
      var p := points[0];
      var rest := CloudText(points[1..], fmt);
      assert '\n' !in fmt(p.x) && '\n' !in fmt(p.y) && '\n' !in fmt(p.z);
      assert '\n' !in LineBody(p, fmt);
      SplitFirst(LineBody(p, fmt), '\n', rest);
      assert CloudText(points, fmt) == LineBody(p, fmt) + ['\n'] + rest;
      CloudTextLines(points[1..], fmt);
      forall k | 0 <= k < |points|
        ensures Split(Split(CloudText(points, fmt), '\n')[k], ' ') == [fmt(points[k].x), fmt(points[k].y), fmt(points[k].z)]
      {
        if k == 0 {
          LineFields(p, fmt);
        } else {
          assert points[k] == points[1..][k - 1];
        }
      }
    }
  }

  /** The two text files sample_and_save_points_as_xyz writes. */
  datatype SavedClouds = SavedClouds(completeText: string, partialText: string)

  /**
   * sample_and_save_points_as_xyz with the surface sample passed in: the
   * sample is written as the complete cloud and its bottom-half selection
   * as the partial cloud.
   */
  method SampleAndSavePointsAsXyz(sample: seq<Point>, numPartial: nat, draw: seq<nat>, fmt: real -> string)
    returns (saved: SavedClouds)
    requires LegalDraw(sample, numPartial, draw)
    ensures saved.completeText == CloudText(sample, fmt)
    ensures saved.partialText == CloudText(SamplePartialFromBottom(sample, numPartial, draw), fmt)
  {
    var completeText := WriteCloud(sample, fmt);
    var partialPoints := SamplePartialFromBottom(sample, numPartial, draw);
    var partialText := WriteCloud(partialPoints, fmt);
    saved := SavedClouds(completeText, partialText);
  }

  /** The three output directories, configured at the top of the script. */
  datatype OutputDirs = OutputDirs(complete: string, partial: string, occupancy: string)

  /** The four paths one mesh file involves. */
  datatype MeshJob = MeshJob(plyPath: string, completePath: string, partialPath: string, occupancyPath: string)

  function JobFor(meshDir: string, dirs: OutputDirs, filename: string): MeshJob {
    MeshJob(
      Join(meshDir, filename),
      Join(dirs.complete, ReplaceAll(filename, ".ply", ".xyz")),
      Join(dirs.partial, ReplaceAll(filename, ".ply", ".xyz")),
      Join(dirs.occupancy, ReplaceAll(filename, ".ply", ".npy")))
  }

  /** The meshes the top-level loop processes, in listing order. */
  function PlannedJobs(meshDir: string, dirs: OutputDirs, listing: seq<string>): (r: seq<MeshJob>)
    ensures |r| <= |listing|
    decreases |listing|
  {
    if listing == [] then []
    else
      var f := listing[|listing| - 1];
      PlannedJobs(meshDir, dirs, listing[..|listing| - 1])
        + (if EndsWith(f, ".ply") then [JobFor(meshDir, dirs, f)] else [])
  }

  /** The top-level `for filename in os.listdir(mesh_directory)` loop, without the mesh work. */
  method ProcessMeshDirectory(meshDir: string, dirs: OutputDirs, listing: seq<string>) returns (jobs: seq<MeshJob>)
    ensures jobs == PlannedJobs(meshDir, dirs, listing)
  {
    jobs := [];
    for i := 0 to |listing|
      invariant jobs == PlannedJobs(meshDir, dirs, listing[..i])
    {
      var filename := listing[i];
      assert listing[..i + 1][..i] == listing[..i];
      if EndsWith(filename, ".ply") {
        var plyFilePath := Join(meshDir, filename);
        var completeOutputFilePath := Join(dirs.complete, ReplaceAll(filename, ".ply", ".xyz"));
        var partialOutputFilePath := Join(dirs.partial, ReplaceAll(filename, ".ply", ".xyz"));
        var occupancyOutputFilePath := Join(dirs.occupancy, ReplaceAll(filename, ".ply", ".npy"));
        jobs := jobs + [MeshJob(plyFilePath, completeOutputFilePath, partialOutputFilePath, occupancyOutputFilePath)];
      }
    }
    assert listing[..|listing|] == listing;
  }

  /** Exactly the .ply entries of the listing are processed. */
  lemma {:induction false} PlannedJobsSpec(meshDir: string, dirs: OutputDirs, listing: seq<string>, job: MeshJob)
    ensures job in PlannedJobs(meshDir, dirs, listing) <==>
      exists f :: f in listing && EndsWith(f, ".ply") && job == JobFor(meshDir, dirs, f)
    decreases |listing|
  {
    if listing != [] {
      var init := listing[..|listing| - 1];
      var last := listing[|listing| - 1];
      PlannedJobsSpec(meshDir, dirs, init, job);
      assert listing == init + [last];
      if job in PlannedJobs(meshDir, dirs, listing) && job !in PlannedJobs(meshDir, dirs, init) {
        assert last in listing;
      }
      if exists f :: f in listing && EndsWith(f, ".ply") && job == JobFor(meshDir, dirs, f) {
        var f :| f in listing && EndsWith(f, ".ply") && job == JobFor(meshDir, dirs, f);
        if f != last {
          assert f in init;
        }
      }
    }
  }

  /** For a mesh name without a '.', the outputs are the stem with .xyz and .npy. */
  lemma OutputNamesOfPly(stem: string)
    requires '.' !in stem
    ensures ReplaceAll(stem + ".ply", ".ply", ".xyz") == stem + ".xyz"
    ensures ReplaceAll(stem + ".ply", ".ply", ".npy") == stem + ".npy"
  {
    ReplaceMarkedSuffix(stem, ".ply", ".xyz", 0);
    ReplaceMarkedSuffix(stem, ".ply", ".npy", 0);
  }

  /**
   * The complete and partial files of one mesh carry the same base name,
   * the listing name with .ply replaced by .xyz, and differ only in their
   * directory.
   */
  lemma CloudsShareName(meshDir: string, dirs: OutputDirs, filename: string)
    requires '/' !in filename
    ensures Basename(JobFor(meshDir, dirs, filename).completePath) == ReplaceAll(filename, ".ply", ".xyz")
    ensures Basename(JobFor(meshDir, dirs, filename).partialPath) == ReplaceAll(filename, ".ply", ".xyz")
  {
    ReplaceAllAvoids(filename, ".ply", ".xyz", '/');
    BasenameOfJoin(dirs.complete, ReplaceAll(filename, ".ply", ".xyz"));
    BasenameOfJoin(dirs.partial, ReplaceAll(filename, ".ply", ".xyz"));
  }
}
