/** The path under which a chosen image is stored: `"images\\" + path.split('/')[-1]`. */
module ImagePath {
  import opened Strings

  /** The Python literal `"images\\"`, i.e. `images` and one backslash. */
  const Prefix: string := "images\\"

  /** The part of `path` after its last `/` (all of it when there is none). */
  function FileName(path: string): string
  {
    var parts := Split(path, '/');
    parts[|parts| - 1]
  }

  /** `"images\\" + path.split('/')[-1]`. */
  function StoredPath(path: string): (r: string)
    ensures |r| >= |Prefix| && r[..|Prefix|] == Prefix
    ensures '/' !in r[|Prefix|..] && |r| - |Prefix| <= |path|
    ensures r[|Prefix|..] == path[|path| - (|r| - |Prefix|)..]
    ensures '/' !in path ==> r[|Prefix|..] == path
  {
    var name := FileName(path);
    SuffixAfterLastSlash(path);
    Prefix + name
  }

  /** The last field is a suffix of the path: everything before it is the
      other fields joined with `/`. */
  lemma SuffixAfterLastSlash(path: string)
    ensures |FileName(path)| <= |path| && FileName(path) == path[|path| - |FileName(path)|..]
  {
    var parts := Split(path, '/');
    if |parts| > 1 {
      SplitInitLast(path, '/');
    } else {
      JoinSplit(path, '/');
    }
  }

  /** A file `name` chosen from directory `dir` is stored as `images\name`. */
  lemma StoredPathOfFileInDir(dir: string, name: string)
    requires '/' !in name
    ensures StoredPath(dir + "/" + name) == Prefix + name
  {
    SplitAppend(dir, name, '/');
  }
}
