/** rrm_locals' `GamePath`: where RimWorld is installed, with a leading
    `~` expanded to the home directory. */
module Locals {
  import opened Wrappers
  import opened Strings
  import Paths

  /** `GamePath`: the installation directory. */
  datatype GamePath = GamePath(path: string)

  /** `GamePath::new`: the empty path. */
  function New(): (g: GamePath)
    ensures g.path == []
  {
    GamePath("")
  }

  /** `path.starts_with("~")` on a `Path`: the first component is exactly `~`. */
  predicate StartsWithTilde(p: string) {
    p == "~" || IsPrefix("~/", p)
  }

  /** The path after tilde expansion: `replacen("~", home, 1)`. */
  function Expand(p: string, home: string): (r: string)
    requires StartsWithTilde(p)
    ensures r == home + p[1..]
  {
    assert IsPrefix("~", p);
    ReplaceFirst(p, "~", home)
  }

  /** The message of a path that is not a directory. */
  function NotADirectory(p: string): string {
    "Path \"" + p + "\" does not exist"
  }

  /** `GamePath::create`: a path whose first component is `~` has its first
      `~` replaced by `$HOME` (the `unwrap` panics when `HOME` is not set);
      any other path is kept. The result is an error unless the expanded
      path is a directory. `isDir` answers the filesystem query. */
  function Create(p: string, home: Option<string>, isDir: string -> bool): (r: Outcome<Result<GamePath, string>>)
    ensures r.Panicked? <==> StartsWithTilde(p) && home.None?
    ensures r.Normal? ==>
      var expanded := if StartsWithTilde(p) then home.value + p[1..] else p;
      r.value == if isDir(expanded) then Ok(GamePath(expanded)) else Err(NotADirectory(expanded))
  {
    var expanded :=
      if StartsWithTilde(p) then
        match home
        case None => Panicked
        case Some(h) => Normal(Expand(p, h))
      else Normal(p);
    match expanded
    case Panicked => Panicked
    case Normal(e) =>
      if !isDir(e) then Normal(Err(NotADirectory(e))) else Normal(Ok(GamePath(e)))
  }

  /** `TryFrom<PathBuf> for GamePath`: `create`. */
  function TryFrom(p: string, home: Option<string>, isDir: string -> bool): (r: Outcome<Result<GamePath, string>>)
    ensures r == Create(p, home, isDir)
  {
    Create(p, home, isDir)
  }

  /** A path not starting with the `~` component, such as `~user/x`, is
      looked up as it is and never needs `HOME`. */
  lemma NoTildeUnchanged(p: string, home: Option<string>, isDir: string -> bool)
    requires !StartsWithTilde(p)
    ensures Create(p, home, isDir) ==
      Normal(if isDir(p) then Ok(GamePath(p)) else Err(NotADirectory(p)))
  {
  }

  /** Expansion replaces only the leading `~`: later ones stay. */
  lemma ExpandOnce(p: string, home: string)
    requires StartsWithTilde(p)
    ensures Expand(p, home)[|home|..] == p[1..]
    ensures multiset(Expand(p, home)) == multiset(home) + multiset(p) - multiset{'~'}
  {
    assert p == ['~'] + p[1..];
    assert multiset(p) == multiset{'~'} + multiset(p[1..]);
  }

  /** A created game path is a directory. */
  lemma CreatedIsDirectory(p: string, home: Option<string>, isDir: string -> bool)
    requires Create(p, home, isDir).Normal? && Create(p, home, isDir).value.Ok?
    ensures isDir(Create(p, home, isDir).value.value.path)
  {
  }

  /** `GamePath::get_mod_path`: the `game/Mods` directory inside the installation. */
  function ModPath(g: GamePath): (r: string)
    ensures g.path != [] && g.path[|g.path| - 1] != '/' ==> r == g.path + "/game/Mods"
    ensures |r| >= 9 && r[|r| - 9..] == "game/Mods"
  {
    Paths.JoinEndsWith(g.path, "game/Mods");
    Paths.Join(g.path, "game/Mods")
  }

  /** `Display for GamePath` and `GamePath::path`: the stored path. */
  function Display(g: GamePath): (r: string)
    ensures r == g.path
  {
    g.path
  }

  /** The displayed path of a created game path is the expanded path. */
  lemma DisplayCreated(p: string, h: string, isDir: string -> bool)
    requires StartsWithTilde(p) && isDir(h + p[1..])
    ensures Create(p, Some(h), isDir) == Normal(Ok(GamePath(h + p[1..])))
    ensures Display(Create(p, Some(h), isDir).value.value) == h + p[1..]
  {
  }
}
