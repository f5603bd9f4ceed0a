/**
 * The collaborators the converter does not implement, as data: what fontTools finds
 * when it loads a path, the `os.path` helpers that split a path, and whether
 * instancing a font at a weight and saving it to a path succeeds.
 */
module FontHost {

  /** What `ttLib.TTFont(path)` gives: an exception, a font without `fvar`, or a variable font. */
  datatype Probe = Unloadable | Static | Variable

  datatype Host = Host(
    probe: string -> Probe,
    /** `os.path.dirname`. */
    dirOf: string -> string,
    /** `os.path.splitext(os.path.basename(path))[0]`. */
    stemOf: string -> string,
    /** Whether instancing `font` at `value` and saving the result to `path` writes `path`. */
    saves: (string, int, string) -> bool)
}
