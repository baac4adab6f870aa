/**
 Which files of a cloned repository the analyzer reads: `collect_source_files`.

 The directory walk (`root.rglob("*")`) is the input: every path it yields,
 in the order it yields them, with the answer `is_file()` gave for it.
 */
module SourceFiles {

  import opened Paths
  import opened Filtering

  /** `SOURCE_EXTS`: the suffixes, after lower-casing, of the files kept. */
  const SourceExts: set<string> := {".js", ".ts", ".jsx", ".tsx", ".py", ".java", ".go", ".c", ".cpp"}

  /** The directory names whose whole subtree is skipped. */
  const SkipDirs: set<string> := {"node_modules", ".git", "dist", "build", "venv", "__pycache__"}

  /** One path yielded by the walk. */
  datatype Entry = Entry(path: Path, isFile: bool)

  /** `p.suffix.lower() in SOURCE_EXTS` for a path whose name is `name`. */
  predicate HasSourceSuffix(name: string)
  {
    Lower(Suffix(name)) in SourceExts
  }

  /** Some component of the path is exactly a skipped directory name. */
  predicate InSkippedDir(p: Path)
  {
    exists i :: 0 <= i < |p| && p[i] in SkipDirs
  }

  /** The rule applied to each walked path. */
  predicate Keep(e: Entry)
  {
    !InSkippedDir(e.path) && e.isFile && HasSourceSuffix(Name(e.path))
  }

  /** The paths of some walked entries, in the same order. */
  function PathsOf(es: seq<Entry>): seq<Path>
  {
    seq(|es|, j requires 0 <= j < |es| => es[j].path)
  }

  /** The kept paths of a walk, in walk order. */
  function Select(walk: seq<Entry>): seq<Path>
  {
    PathsOf(Filter(walk, Keep))
  }

  /**
   `collect_source_files`: one pass over the walk, skipping paths under a
   skipped directory, then appending the regular files with a source suffix.
   */
  method CollectSourceFiles(walk: seq<Entry>) returns (files: seq<Path>)
    ensures files == Select(walk)
    ensures forall j :: 0 <= j < |files| ==> HasSourceSuffix(Name(files[j])) && !InSkippedDir(files[j])
  {
    files := [];
    for i := 0 to |walk|
      invariant files == Select(walk[..i])
    {
      assert walk[..i + 1][..i] == walk[..i];
      var p := walk[i];
      if exists k :: 0 <= k < |p.path| && p.path[k] in SkipDirs {
        continue;
      }
      if p.isFile && Lower(Suffix(Name(p.path))) in SourceExts {
        files := files + [p.path];
      }
    }
    assert walk[..|walk|] == walk;
    FilterKeeps(walk, Keep);
  }

  /**
   The selection is the walk with exactly the non-kept paths removed: the
   j-th selected path is the walk's path at the j-th kept position, those
   positions increase, and a position is among them exactly when its path
   is kept.
   */
  lemma SelectIsOrderedSubsequence(walk: seq<Entry>)
    ensures |Positions(walk, Keep)| == |Select(walk)|
    ensures forall j :: 0 <= j < |Select(walk)| ==>
      Positions(walk, Keep)[j] < |walk| && Select(walk)[j] == walk[Positions(walk, Keep)[j]].path
    ensures forall j, k :: 0 <= j < k < |Positions(walk, Keep)| ==> Positions(walk, Keep)[j] < Positions(walk, Keep)[k]
    ensures forall i :: 0 <= i < |walk| ==> (Keep(walk[i]) <==> i in Positions(walk, Keep))
  {
    FilterAtPositions(walk, Keep);
    PositionsIncrease(walk, Keep);
    PositionsExact(walk, Keep);
  }

  /** The suffix test ignores case: two names that lower-case alike are both kept or both dropped. */
  lemma SourceSuffixIgnoresCase(a: string, b: string)
    requires Lower(a) == Lower(b)
    ensures HasSourceSuffix(a) <==> HasSourceSuffix(b)
  {
    SuffixLower(a);
    SuffixLower(b);
  }

  /** An upper-case extension is accepted: "MAIN.PY" has suffix ".PY", and ".py" is a source suffix. */
  lemma UpperCaseSuffixKept()
    ensures Keep(Entry(["repo", "src", "MAIN.PY"], true))
  {
    assert LastDot("MAIN.PY") == 4;
    assert Suffix("MAIN.PY") == ".PY";
    assert Lower(".PY") == ".py";
  }

  /**
   Skipping matches whole components: a directory called "build_tools" is
   walked into, a directory called "build" is not.
   */
  lemma SkipMatchesWholeComponents()
    ensures Keep(Entry(["repo", "build_tools", "gen.py"], true))
    ensures !Keep(Entry(["repo", "build", "gen.py"], true))
  {
    assert LastDot("gen.py") == 3;
    assert Suffix("gen.py") == ".py";
    assert Lower(".py") == ".py";
    assert ["repo", "build", "gen.py"][1] in SkipDirs;
  }

  /**
   The skip test sees the whole path, including the directories above the
   clone: a clone made while the working directory lies under one named
   "venv" has every file skipped.
   */
  lemma SkipSeesDirectoriesAboveClone()
    ensures !Keep(Entry(["srv", "venv", "app", "temp_clones", "c", "x.py"], true))
  {
    assert ["srv", "venv", "app", "temp_clones", "c", "x.py"][1] in SkipDirs;
  }
}
