/** The command-line argument records of the search, install and pull
    commands, and how their field switches become a filter flag set. */
module Args {
  import Wrappers
  import Scrap

  /** `DisplayOptions`. */
  datatype DisplayOptions = DisplayOptions(large: bool, pager: bool, noPager: bool)

  /** `Steam`: the `search steam` arguments. `filter` is absent, present
      without a value, or present with one. */
  datatype Steam = Steam(
    display: DisplayOptions,
    mod: string,
    filter: Wrappers.Option<Wrappers.Option<string>>,
    author: bool, version: bool, steamId: bool, name: bool, all: bool)

  /** `Local`: the `search local` arguments. */
  datatype Local = Local(
    display: DisplayOptions,
    pattern: string,
    author: bool, version: bool, steamId: bool, name: bool, all: bool)

  /** `InstallCommandGroup`: the `install` arguments. */
  datatype InstallCommandGroup = InstallCommandGroup(
    rimmod: seq<string>,
    filter: Wrappers.Option<Wrappers.Option<string>>,
    author: bool, version: bool, steamId: bool, name: bool, all: bool,
    yes: bool, resolve: bool, verbose: bool, debug: bool)

  /** `Pull`: the `pull` arguments. */
  datatype Pull = Pull(resolve: bool, verbose: bool, debug: bool)

  /** The fields of rrm_locals' `FilterBy`. */
  datatype LocalFilterBy = Name | Author | Version | SteamID | None

  /** rrm_locals' `FilterBy::All`: every field flag, without `None`. */
  const LocalAll: set<LocalFilterBy> := {Name, Author, Version, SteamID}

  /** The `filter!` macro: `all` gives exactly `All`; otherwise each set
      switch adds its flag (name: Title, author: Author, version:
      Description, steam_id: SteamID), `None` is removed and an empty set
      falls back to `Title`. */
  function FilterFlags(name: bool, author: bool, version: bool, steamId: bool, all: bool): (r: Scrap.FlagSet)
    ensures all ==> r == Scrap.All
    ensures Scrap.None !in r && r != {}
    ensures !all ==> (Scrap.Title in r <==> name || !(author || version || steamId))
    ensures !all ==> (Scrap.Author in r <==> author)
    ensures !all ==> (Scrap.Description in r <==> version)
    ensures !all ==> (Scrap.SteamID in r <==> steamId)
  {
    var result: Scrap.FlagSet := {Scrap.None};
    if all then Scrap.All
    else
      var result := result + {if name then Scrap.Title else Scrap.None};
      var result := result + {if author then Scrap.Author else Scrap.None};
      var result := result + {if version then Scrap.Description else Scrap.None};
      var result := result + {if steamId then Scrap.SteamID else Scrap.None};
      var result := result - {Scrap.None};
      if result == {} then result + {Scrap.Title} else result
  }

  /** `Steam::to_filter_obj`. */
  function SteamFilterObj(s: Steam): (r: Scrap.FlagSet)
    ensures Scrap.None !in r && r != {}
  {
    FilterFlags(s.name, s.author, s.version, s.steamId, s.all)
  }

  /** `InstallCommandGroup::to_filter_obj`. */
  function InstallFilterObj(i: InstallCommandGroup): (r: Scrap.FlagSet)
    ensures Scrap.None !in r && r != {}
  {
    FilterFlags(i.name, i.author, i.version, i.steamId, i.all)
  }

  /** With no field switch the filter is by title alone. */
  lemma DefaultIsTitle(name: bool, author: bool, version: bool, steamId: bool, all: bool)
    requires !(name || author || version || steamId || all)
    ensures FilterFlags(name, author, version, steamId, all) == {Scrap.Title}
  {
    var r := FilterFlags(name, author, version, steamId, all);
    assert forall f :: f in r <==> f == Scrap.Title by {
      forall f ensures f in r <==> f == Scrap.Title {
        match f
        case SteamID =>
        case Title =>
        case Description =>
        case Author =>
        case None =>
      }
    }
  }

  /** The search and install commands expand the same macro, so equal
      switches give equal flag sets. */
  lemma SameFilterForSearchAndInstall(s: Steam, i: InstallCommandGroup)
    requires s.name == i.name && s.author == i.author && s.version == i.version
    requires s.steamId == i.steamId && s.all == i.all
    ensures SteamFilterObj(s) == InstallFilterObj(i)
  {
  }

  /** `Local::to_filter_obj`: `all` gives exactly `All`; otherwise each set
      switch adds its flag (name: Name, author: Author, version: Version,
      steam_id: SteamID), `None` is removed and an empty set falls back to
      `Name`. */
  function LocalFilterObj(l: Local): (r: set<LocalFilterBy>)
    ensures l.all ==> r == LocalAll
    ensures None !in r && r != {}
    ensures !l.all ==> (Name in r <==> l.name || !(l.author || l.version || l.steamId))
    ensures !l.all ==> (Author in r <==> l.author)
    ensures !l.all ==> (Version in r <==> l.version)
    ensures !l.all ==> (SteamID in r <==> l.steamId)
  {
    var result: set<LocalFilterBy> := {None};
    if l.all then LocalAll
    else
      var result := result + {if l.name then Name else None};
      var result := result + {if l.author then Author else None};
      var result := result + {if l.version then Version else None};
      var result := result + {if l.steamId then SteamID else None};
      var result := result - {None};
      if result == {} then result + {Name} else result
  }

  /** `is_verbose` of `Pull`: debug output implies verbose output. */
  function PullIsVerbose(p: Pull): (r: bool)
    ensures p.debug ==> r
    ensures !p.debug ==> r == p.verbose
  {
    p.verbose || p.debug
  }

  /** `is_debug` of `Pull`: the debug switch, which also makes the run verbose. */
  function PullIsDebug(p: Pull): (r: bool)
    ensures r <==> p.debug
    ensures r ==> PullIsVerbose(p)
  {
    p.debug
  }

  /** `is_verbose` of `InstallCommandGroup`: debug output implies verbose output. */
  function InstallIsVerbose(i: InstallCommandGroup): (r: bool)
    ensures i.debug ==> r
    ensures !i.debug ==> r == i.verbose
  {
    i.verbose || i.debug
  }

  /** `is_debug` of `InstallCommandGroup`: the debug switch, which also makes the run verbose. */
  function InstallIsDebug(i: InstallCommandGroup): (r: bool)
    ensures r <==> i.debug
    ensures r ==> InstallIsVerbose(i)
  {
    i.debug
  }

  /** Whoever asks for debug output also gets verbose output. */
  lemma DebugImpliesVerbose(p: Pull, i: InstallCommandGroup)
    ensures PullIsDebug(p) ==> PullIsVerbose(p)
    ensures InstallIsDebug(i) ==> InstallIsVerbose(i)
  {
  }
}
