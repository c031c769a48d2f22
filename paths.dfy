/** The POSIX `os.path` operations the scrapers use to name their files. */
module Paths {
  import opened Text

  /** `os.path.basename` (POSIX): what follows the last `/`. */
  function Basename(p: string): (r: string)
    ensures '/' !in r && EndsWith(p, r)
    ensures |r| == |p| || p[|p| - |r| - 1] == '/'
  {
    if p == "" || p[|p| - 1] == '/' then ""
    else
      var r := Basename(p[..|p| - 1]) + [p[|p| - 1]];
      assert p[|p| - |r|..] == p[..|p| - 1][|p| - 1 - (|r| - 1)..] + [p[|p| - 1]];
      r
  }

  /** `os.path.join(directory, name)` for a relative directory. */
  function JoinPath(directory: string, name: string): string {
    if StartsWith(name, "/") then name else directory + "/" + name
  }
}
