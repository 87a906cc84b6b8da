/**
 * The travel-time files: where an origin's file lives, and the file system as
 * the set of existing paths with the dataset each holds.
 */
module Files {
  import opened Records

  type Path = string

  /** The fixed part of every travel-time file path below the data directory. */
  const TravelTimePrefix: string := "traveltimes/traveltimes_from_"
  const TravelTimeSuffix: string := ".json"

  /** `os.path.join(dir, rel)` for a relative `rel`: a separator is added unless `dir` is empty or ends in one. */
  function JoinPath(dir: string, rel: Path): (r: Path)
  {
    if rel != [] && rel[0] == '/' then rel
    else if dir == [] || dir[|dir| - 1] == '/' then dir + rel
    else dir + "/" + rel
  }

  /** The directory part that `JoinPath` puts in front of a relative path not starting with `/`. */
  function DirPrefix(dir: string): (r: string)
  {
    if dir == [] || dir[|dir| - 1] == '/' then dir else dir + "/"
  }

  /** `data_dir/traveltimes/traveltimes_from_<code>.json` (Station.get_travel_time_filepath). */
  function TravelTimePath(dataDir: string, code: string): (r: Path)
  {
    JoinPath(dataDir, TravelTimePrefix + code + TravelTimeSuffix)
  }

  /** The path is the directory part, the fixed prefix, the code and `.json`, in that order. */
  lemma TravelTimePathShape(dataDir: string, code: string)
    ensures TravelTimePath(dataDir, code) == DirPrefix(dataDir) + TravelTimePrefix + code + TravelTimeSuffix
  {
    var rel := TravelTimePrefix + code + TravelTimeSuffix;
    assert rel[0] == 't';
  }

  /** Within one data directory, two codes share a travel-time file only if they are the same code. */
  lemma TravelTimePathInjective(dataDir: string, code1: string, code2: string)
    requires TravelTimePath(dataDir, code1) == TravelTimePath(dataDir, code2)
    ensures code1 == code2
  {
    TravelTimePathShape(dataDir, code1);
    TravelTimePathShape(dataDir, code2);
    var pre := DirPrefix(dataDir) + TravelTimePrefix;
    var p1 := pre + code1 + TravelTimeSuffix;
    var p2 := pre + code2 + TravelTimeSuffix;
    assert p1 == p2;
    assert |code1| == |code2|;
    forall k | 0 <= k < |code1| ensures code1[k] == code2[k] {
      assert p1[|pre| + k] == code1[k];
      assert p2[|pre| + k] == code2[k];
    }
  }

  /**
   * The file system as the registry sees it: a path exists iff it is a key of
   * `files`, which holds the parsed `stations` list of that file. `writes` is
   * the sequence of paths written so far.
   */
  class FileSystem {
    var files: map<Path, Dataset>
    ghost var writes: seq<Path>

    constructor (existing: map<Path, Dataset>)
      ensures files == existing && writes == []
    {
      files := existing;
      writes := [];
    }

    /** `os.path.exists(p)`. */
    function Exists(p: Path): (r: bool)
      reads this
      ensures r <==> p in files
    {
      p in files
    }

    /** `open(p, 'w').write(...)`: creates or replaces the file. */
    method Write(p: Path, data: Dataset)
      modifies this
      ensures files == old(files)[p := data]
      ensures writes == old(writes) + [p]
    {
      files := files[p := data];
      writes := writes + [p];
    }
  }
}
