/**
 * The two `path` helpers the extension applies to file names and URI strings, on `/`-separated
 * text: `path.basename` and `path.extname`.
 */
module Paths {
  import opened Strings

  /** The part of `name` after its last `/`. */
  function LastSegment(name: string): (segment: string)
    ensures '/' !in segment
    ensures '/' !in name ==> segment == name
    ensures |segment| <= |name| && segment == name[|name| - |segment|..]
  {
    name[LastIndexOfChar(name, '/') + 1..]
  }

  /** `name` without its trailing slashes. */
  function TrimTrailingSlashes(name: string): (r: string)
    ensures |r| <= |name| && r == name[..|r|]
    ensures r == [] || r[|r| - 1] != '/'
    ensures forall i :: |r| <= i < |name| ==> name[i] == '/'
    decreases |name|
  {
    if name != [] && name[|name| - 1] == '/' then TrimTrailingSlashes(name[..|name| - 1]) else name
  }

  /** `path.basename(name)`: the last segment once trailing slashes are dropped. */
  function Basename(name: string): (base: string)
    ensures '/' !in base
    ensures '/' !in name ==> base == name
  {
    LastSegment(TrimTrailingSlashes(name))
  }

  /**
   * `path.extname(name)` on the last segment: from its last `.` to its end, provided that dot
   * is not the segment's first character and the segment is not `..`; otherwise empty.
   */
  function Extname(name: string): (ext: string)
    ensures ext == "" || (ext[0] == '.' && '.' !in ext[1..] && '/' !in ext)
  {
    var segment := LastSegment(name);
    var dot := LastIndexOfChar(segment, '.');
    if dot <= 0 || segment == ".." then "" else segment[dot..]
  }

  predicate HasExtension(fileName: string) {
    Extname(fileName) != ""
  }
}
