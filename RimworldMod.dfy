/** RimWorld package ids (`Author.Name.Path`) and the mod record built
    from a Steam search result. */
module RimworldMod {
  import opened Wrappers
  import opened Strings
  import Scrap

  /** `PackageId`: the author and the dot-separated name path. */
  datatype PackageId = PackageId(author: string, namePath: seq<string>)

  /** `Display for PackageId`: `author.name.path`. */
  function Display(p: PackageId): (r: string)
    ensures |p.author| < |r| && r[..|p.author|] == p.author && r[|p.author|] == '.'
    ensures r[|p.author| + 1..] == Join(p.namePath, ".")
  {
    var r := p.author + "." + Join(p.namePath, ".");
    assert r[|p.author| + 1..] == Join(p.namePath, ".");
    r
  }

  /** `PackageId::parse`: the text up to the first `.` is the author and
      the rest, split on every `.`, the name path; without a `.` the
      `split_once(..).unwrap()` panics. */
  function Parse(s: string): (r: Outcome<PackageId>)
    ensures r.Normal? <==> '.' in s
    ensures r.Normal? ==> '.' !in r.value.author && r.value.namePath != []
    ensures r.Normal? ==> forall k :: 0 <= k < |r.value.namePath| ==> '.' !in r.value.namePath[k]
  {
    match IndexOf(s, '.')
    case None => Panicked
    case Some(i) => Normal(PackageId(s[..i], Split(s[i + 1..], '.')))
  }

  /** Displaying a parsed id gives the parsed text back. */
  lemma DisplayParse(s: string)
    requires '.' in s
    ensures Display(Parse(s).value) == s
  {
    var i := IndexOf(s, '.').value;
    JoinSplit(s[i + 1..], '.');
    assert s == s[..i] + [s[i]] + s[i + 1..];
  }

  /** Parsing a displayed id gives the id back, when the author and the
      name path pieces hold no `.` and the name path is not empty. */
  lemma ParseDisplay(p: PackageId)
    requires '.' !in p.author && p.namePath != []
    requires forall k :: 0 <= k < |p.namePath| ==> '.' !in p.namePath[k]
    ensures Parse(Display(p)) == Normal(p)
  {
    var rest := Join(p.namePath, ".");
    FirstOccurrence(p.author, '.', rest);
    SplitJoin(p.namePath, '.');
    var s := p.author + "." + rest;
    assert s[..|p.author|] == p.author;
    assert s[|p.author| + 1..] == rest;
  }

  /** The example package id of the tests, displayed. */
  lemma DisplayExample()
    ensures Display(PackageId("OskarPotocki", ["VanillaFactionsExpanded", "Core"]))
      == "OskarPotocki.VanillaFactionsExpanded.Core"
  {
    var names := ["VanillaFactionsExpanded", "Core"];
    assert names[1..] == ["Core"];
    assert Join(names, ".") == "VanillaFactionsExpanded" + "." + "Core";
  }

  /** The example package id of the tests, parsed. */
  lemma ParseExample()
    ensures Parse("OskarPotocki.VanillaFactionsExpanded.Core")
      == Normal(PackageId("OskarPotocki", ["VanillaFactionsExpanded", "Core"]))
  {
    var p := PackageId("OskarPotocki", ["VanillaFactionsExpanded", "Core"]);
    DisplayExample();
    assert '.' !in p.namePath[0] && '.' !in p.namePath[1];
    ParseDisplay(p);
  }

  /** The package id a mod record carries: `UnknownPackageId` or `KnownPackageId`. */
  datatype PackageTag = Unknown | Known(id: PackageId)

  /** `RimworldMod<P>`. */
  datatype RimworldMod = RimworldMod(
    id: PackageTag, steamId: Usize, name: string, author: string,
    description: string, versions: seq<string>)

  /** `From<ModSteamInfo> for RimworldMod<UnknownPackageId>`. */
  function FromSteamInfo(m: Scrap.ModSteamInfo): (r: RimworldMod)
    ensures r.id == Unknown && r.versions == []
  {
    RimworldMod(Unknown, m.id, m.title, m.author, m.description, [])
  }

  /** The Steam fields survive the conversion: the search result can be
      read back from the mod record. */
  lemma FromSteamInfoKeepsFields(m: Scrap.ModSteamInfo)
    ensures var r := FromSteamInfo(m);
      Scrap.ModSteamInfo(r.steamId, r.name, r.description, r.author) == m
  {
  }

  /** `RimworldMod<UnknownPackageId>::add_id`: the id becomes known and
      nothing else changes. */
  function AddId(m: RimworldMod, id: PackageId): (r: RimworldMod)
    requires m.id == Unknown
    ensures r.id == Known(id)
    ensures r.(id := Unknown) == m
  {
    m.(id := Known(id))
  }
}
