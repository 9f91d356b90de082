/** The query rule of `search_in_steam!` and the id extraction of the
    command-line helpers. */
module Utils {
  import opened Wrappers
  import Args
  import Scrap

  /** The query `search_in_steam!` filters with, if any: none without a
      `filter` option, the option's value when it has one, and the
      positional mod name when `filter` is given bare. */
  function Query(args: Args.Steam): (q: Option<string>)
    ensures q.None? <==> args.filter.None?
    ensures args.filter == Some(None) ==> q == Some(args.mod)
    ensures forall v :: args.filter == Some(Some(v)) ==> q == Some(v)
  {
    match args.filter
    case None => None
    case Some(None) => Some(args.mod)
    case Some(Some(v)) => Some(v)
  }

  /** `search_in_steam!(args, mods)`: the result list unchanged without a
      filter, otherwise `filter_by` with the arguments' flag set and query. */
  method SearchInSteam(args: Args.Steam, mods: Scrap.SteamMods, matches: (string, string) -> bool)
    returns (r: Scrap.SteamMods)
    ensures args.filter.None? ==> r == mods
    ensures args.filter.Some? ==>
      && r.mods == Scrap.Filtered(mods.mods, Args.SteamFilterObj(args), Query(args).value, matches)
      && r.biggestNameSize == Scrap.MaxTitleBytes(r.mods)
      && r.displayType == mods.displayType
  {
    match Query(args)
    case None => r := mods;
    case Some(value) => r := mods.FilterBy(Args.SteamFilterObj(args), value, matches);
  }

  /** Filtering with a bare `filter` and no field switch keeps exactly the
      mods whose title matches the positional mod name, in order. */
  lemma BareFilterMatchesTitles(args: Args.Steam, mods: seq<Scrap.ModSteamInfo>, matches: (string, string) -> bool)
    requires args.filter == Some(None)
    requires !(args.name || args.author || args.version || args.steamId || args.all)
    ensures var kept := Scrap.Filtered(mods, Args.SteamFilterObj(args), Query(args).value, matches);
      forall m :: m in kept <==> m in mods && matches(m.title, args.mod)
  {
    Args.DefaultIsTitle(args.name, args.author, args.version, args.steamId, args.all);
    Scrap.FilteredMembers(mods, {Scrap.Title}, args.mod, matches);
  }

  /** What a regex match yields: the number of groups (`caps.len()`) and
      the named groups that took part in the match. */
  datatype Captures = Captures(len: nat, named: map<string, string>)

  /** `extract_id(m, reg)`: none when `reg` does not match or reports no
      groups, otherwise the group named `id`; indexing a missing group
      panics. `reg` answers the regex query. */
  function ExtractId(m: string, reg: string -> Option<Captures>): (r: Outcome<Option<string>>)
    ensures reg(m).None? ==> r == Normal(None)
    ensures reg(m).Some? && reg(m).value.len == 0 ==> r == Normal(None)
    ensures reg(m).Some? && reg(m).value.len > 0 ==>
      (r.Panicked? <==> "id" !in reg(m).value.named)
    ensures r.Normal? && r.value.Some? ==>
      reg(m).Some? && "id" in reg(m).value.named && r.value.value == reg(m).value.named["id"]
  {
    match reg(m)
    case None => Normal(None)
    case Some(caps) =>
      if caps.len == 0 then Normal(None)
      else if "id" in caps.named then Normal(Some(caps.named["id"]))
      else Panicked
  }
}
