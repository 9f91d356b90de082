/** `PathBuf::join` with Unix separators. */
module Paths {
  import opened Strings

  /** The three targets the installer is compiled for. */
  datatype Os = Linux | MacOs | Windows

  /** `base.join(comp)`: an absolute component replaces the base; otherwise a
      `/` is inserted unless the base is empty or already ends with one. */
  function Join(base: string, comp: string): (r: string)
    ensures comp != [] && comp[0] != '/' && base != [] && base[|base| - 1] != '/' ==>
      r == base + "/" + comp
    ensures comp != [] && comp[0] == '/' ==> r == comp
    ensures base == [] ==> r == comp
  {
    if comp != [] && comp[0] == '/' then comp
    else if base == [] then comp
    else if base[|base| - 1] == '/' then base + comp
    else base + "/" + comp
  }

  /** A relative component always ends the joined path. */
  lemma JoinEndsWith(base: string, comp: string)
    requires comp != [] && comp[0] != '/'
    ensures var r := Join(base, comp); |comp| <= |r| && r[|r| - |comp|..] == comp
  {
  }

  /** Joining only adds characters of the two sides and `/`. */
  lemma JoinChars(base: string, comp: string, x: char)
    requires x !in base && x !in comp && x != '/'
    ensures x !in Join(base, comp)
  {
  }
}
