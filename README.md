# rrm core, modelled in Dafny

rrm is a command-line mod manager for RimWorld. It searches the Steam
Workshop, filters and prints the results, turns command-line switches into
filter flag sets, and installs workshop items through `steamcmd`. This
project models that core and proves properties of the model:

- `Scrap` (rrm_scrap): the `FilterBy` flags and their `u8` bits.
  - The search-result records and their conversion from the page's JSON.
  - The author-merge loop of `look_for_mod`.
  - `filter_by` as a loop method, specified by the reference function `Filtered`.
  - The text rendering of a result list: headers, short and long rows, and the numbered form.
- `Args` (src/args.rs): the `filter!` macro behind `to_filter_obj` for the Steam search and for install.
  - `Local::to_filter_obj`.
  - `is_verbose`/`is_debug`.
- `Installer` (rrm_installer): the install string and how it splits into steamcmd arguments.
  - The Windows and Unix command lines.
  - The retry logic of `run_steam_command`, as a loop method against the reference function `RunFrom`.
  - `install_sync`, configuration directory selection and the error texts.
- `Utils` (src/utils.rs): the query rule of `search_in_steam!` and `extract_id`.
- `RimworldMod` (src/rimworldmod.rs): package id parsing and printing, and the mod record.
- `Locals` (rrm_locals/src/game_path.rs): `GamePath` creation with `~` expansion, and the mod directory.
- `Strings`, `Paths`, `Wrappers`: the Rust standard-library behaviour the core relies on.
  - `split` always yields at least one piece.
  - `replace` is leftmost and non-overlapping, and `replacen(…, 1)` replaces once.
  - The `usize` parse and the UTF-8 byte length `len()`.
  - Format padding counts characters.
  - `Path::join` follows Unix rules.
  - A panic (an `unwrap` on `None`, an out-of-bounds index) is the `Panicked` outcome.

Effects become parameters:
- The fuzzy matcher is a predicate `matches(haystack, query)`.
- Each steamcmd attempt's output comes from an oracle sequence.
- Environment variables are a map.
- The home directory is an option.
- `exists`/`is_dir` are predicates.
- The regex is a function returning its captures.

The model follows the code where it is surprising:
- In `filter_by` the `Description` flag matches against the author (rrm_scrap/src/lib.rs:298-299), so `Scrap.Selected` checks the author for both `Author` and `Description`.
- `get_config_path` falls back to `/etc/rrm/rrm`, while `get_or_create_config_dir` falls back to `RRM_CONFIG_HOME`, `CONFIG_HOME` and then the home directory. The two agree whenever `XDG_CONFIG_HOME` is set. Without it they agree only when one of the other variables holds `/etc/rrm`.

## Model

| member | source | states |
|---|---|---|
| Scrap.BitsRoundTrip | rrm_scrap/src/lib.rs:262-271 | a flag set is recovered from its `u8` bits |
| Scrap.FromBitsRoundTrip | rrm_scrap/src/lib.rs:262-271 | every value below 32 is the bits of exactly one flag set |
| Scrap.AllBits | rrm_scrap/src/lib.rs:262-271 | `All` is 0b01111 and does not contain `None`; each flag has its declared bit |
| Scrap.FromRaw | rrm_scrap/src/lib.rs:97-106 | succeeds iff the id text parses as a `usize`; the id is the parsed value; the texts are copied; a missing author is "" |
| Scrap.FromRawToRaw | rrm_scrap/src/lib.rs:84-106 | the conversion loses nothing: a raw record with the record's decimal id and its fields converts back to the record (that inverse exists only in the model) |
| Strings.ParseDecimal | rrm_scrap/src/lib.rs:100 | parsing the decimal text of a `usize` gives the number back |
| Scrap.Capitalize | rrm_scrap/src/lib.rs:15-18 | panics iff the string is empty or its first character is not one byte; otherwise only the first character is upper-cased, and the length is kept |
| Scrap.CapitalizeIdempotent | rrm_scrap/src/lib.rs:15-18 | capitalizing twice equals capitalizing once |
| Scrap.ModSteamInfo.GenLargeLines | rrm_scrap/src/lib.rs:120-126 | when the fields hold no newline, the text splits into the name, Steam ID, author and description lines, in that order, each ended by a newline |
| Scrap.ModSteamInfo.GenShort | rrm_scrap/src/lib.rs:128-133 | the row is as wide as the padded id (15), the padded title (the name width), the padded author (20) and two 3-space gaps; it holds no newline when title and author hold none |
| Scrap.ModSteamInfo.HeaderLines | rrm_scrap/src/lib.rs:110-118 | exactly two lines: the titles line, then the rule line |
| Scrap.ModSteamInfo.GenDisplay | rrm_scrap/src/lib.rs:145-157 | the long form for `Long`, the short row otherwise, followed by one newline |
| Scrap.ShortColumns | rrm_scrap/src/lib.rs:128-133 | in a short row (width 21 + name width + padded author) the id ends at column 15, the title starts at 18 and the author at 21 + name width; every other column is a space |
| Scrap.TableColumns | rrm_scrap/src/lib.rs:128-133 | the padding layout shared by rows and headers: the line width, each text at its column, and a space in every other column (before the id, both 3-space gaps, after the title and after the author) |
| Scrap.HeaderColumns | rrm_scrap/src/lib.rs:110-118 | "Steam ID", "Name" and "Uploader", and the dashes under them, sit in the same columns as the row fields |
| Scrap.ShiftIdHeader | rrm_scrap/src/lib.rs:208 | the first replacement of the numbered form moves only the id header six columns to the right |
| Scrap.NumberedHeadersLayout | rrm_scrap/src/lib.rs:206-210 | the numbered headers are both header lines indented by six columns, followed by a newline |
| Scrap.SteamMods.GenDisplay | rrm_scrap/src/lib.rs:194-222 | Short gives headers, a newline and the short rows; Long gives the long rows; no display type gives the shifted headers and every short row behind its left-aligned index |
| Scrap.TypedDisplay | rrm_scrap/src/lib.rs:197-205 | the branch with a display type: headers only for Short, then every record in that form |
| Scrap.NumberedDisplay | rrm_scrap/src/lib.rs:206-218 | the branch without a display type: shifted headers, then the numbered short rows |
| Scrap.PushRows | rrm_scrap/src/lib.rs:203-205 | the loop appends exactly the rows of all records, in order |
| Scrap.PushNumberedRows | rrm_scrap/src/lib.rs:212-218 | the loop appends `" <i padded to 4> <short row>"` for every record, in order |
| Scrap.MergeAuthors | rrm_scrap/src/lib.rs:55-64 | panics iff there are more authors than records; record k gets author k; the other records are unchanged; the size is the largest title byte length among the updated records |
| Scrap.MaxTitleBytes | rrm_scrap/src/lib.rs:310-312 | the largest title byte length: an upper bound that is attained, and 0 for no records |
| Scrap.TitlesFitColumn | rrm_scrap/src/lib.rs:131 | every title fits, in characters, in a column as wide as the largest title byte length |
| Strings.CharsAtMostBytes | rrm_scrap/src/lib.rs:59-60 | a string's character count is at most its UTF-8 byte length |
| Scrap.AsWrittenIsSelected | rrm_scrap/src/lib.rs:288-307 | the per-record test, with its `contains(All)` disjuncts, is exactly `Selected`: title for Title, author for Author or Description, decimal id for SteamID |
| Scrap.SteamMods.FilterBy | rrm_scrap/src/lib.rs:278-319 | the result holds exactly `Filtered` (the selected records, in order), the largest kept title byte length, and the same display type |
| Scrap.FilteredMembers | rrm_scrap/src/lib.rs:288-316 | a record is kept iff it is in the input and selected |
| Scrap.FilteredIsSubsequence | rrm_scrap/src/lib.rs:288-316 | the kept records are a subsequence of the input |
| Scrap.FilteredAppend | rrm_scrap/src/lib.rs:288-316 | filtering a concatenation concatenates the filtered parts |
| Scrap.FilteredIdempotent | rrm_scrap/src/lib.rs:288-316 | filtering again with the same flags and query changes nothing |
| Scrap.NoFieldKeepsNothing | rrm_scrap/src/lib.rs:288-316 | a flag set naming no field keeps no record |
| Args.FilterFlags | src/args.rs:337-359 | `all` gives exactly `All`; `None` is never in the result, which is never empty; otherwise Title iff `name` or no field switch is set, Author iff `author`, Description iff `version`, SteamID iff `steam_id` |
| Args.SteamFilterObj | src/args.rs:361-365 | the Steam search flag set never contains `None` and is never empty |
| Args.InstallFilterObj | src/args.rs:367-371 | the install flag set never contains `None` and is never empty |
| Args.DefaultIsTitle | src/args.rs:353-355 | with no field switch the flag set is exactly {Title} |
| Args.SameFilterForSearchAndInstall | src/args.rs:361-371 | equal switches give equal flag sets for the Steam search and for install |
| Args.LocalFilterObj | src/args.rs:313-335 | `all` gives exactly `All`; `None` is never in the result, which is never empty; otherwise Name iff `name` or no field switch is set, Author iff `author`, Version iff `version`, SteamID iff `steam_id` |
| Args.PullIsVerbose | src/args.rs:384-399 | debug implies verbose; without debug it is the verbose switch |
| Args.InstallIsVerbose | src/args.rs:384-399 | debug implies verbose; without debug it is the verbose switch |
| Args.PullIsDebug | src/args.rs:391-393 | the debug switch, and whenever it holds the run is also verbose |
| Args.InstallIsDebug | src/args.rs:391-393 | the debug switch, and whenever it holds the run is also verbose |
| Args.DebugImpliesVerbose | src/args.rs:386-393 | whoever asks for debug output also gets verbose output |
| Installer.CodeText | rrm_installer/src/lib.rs:35-44 | each code's text is non-empty and holds no colon |
| Installer.ErrorText | rrm_installer/src/lib.rs:57-61 | the text is the code's text, then ": ", then the message |
| Installer.CodeTexts | rrm_installer/src/lib.rs:35-44 | the three code texts are distinct and hold no colon |
| Installer.ErrorTextInjective | rrm_installer/src/lib.rs:35-61 | an error's text determines its code and its message |
| Installer.Ids | rrm_installer/src/lib.rs:241-243 | one decimal id per mod, in order |
| Installer.GenInstallString | rrm_installer/src/lib.rs:239-245 | the string starts with the download directive; for no mods it is the directive and one space |
| Installer.InstallStringTokens | rrm_installer/src/lib.rs:239-245 | split on spaces, the install string of space-free ids is the directive word, the app id and the mod id, once per mod; for no ids the last token is empty |
| Installer.GenInstallStringTokens | rrm_installer/src/lib.rs:239-245 | the install string of a mod list splits into the directive tokens of its decimal ids |
| Installer.SteamCmdPath | rrm_installer/src/lib.rs:345-354 | `<config>/steamcmd/` then `steamcmd` (macOS), `steamcmd.sh` (Linux) or `steamcmd.exe` (Windows) |
| Installer.SteamCmdPathChars | rrm_installer/src/lib.rs:345-354 | the steamcmd path adds no space, `[` or `{` to the configuration directory |
| Installer.SteamInvocation | rrm_installer/src/lib.rs:292-327 | Windows runs the steamcmd path under the configuration directory, Unix runs `env`; there is always an argument (the words are stated by the arguments lemmas below) |
| Installer.SplitLogin | rrm_installer/src/lib.rs:297 | `+login anonymous <c> +quit` splits into `+login`, `anonymous`, the pieces of c and `+quit` |
| Installer.FillWindowsTemplate | rrm_installer/src/lib.rs:297 | replacing `{}` in the Windows template inserts the command once, whatever it holds |
| Installer.WindowsArguments | rrm_installer/src/lib.rs:295-297 | on Windows steamcmd itself runs with `+login`, `anonymous`, the pieces of the command and `+quit` |
| Installer.FillUnixPath | rrm_installer/src/lib.rs:310-314 | the `PATH` replacement puts the configuration directory after `HOME=` |
| Installer.FillUnixSteam | rrm_installer/src/lib.rs:315 | the `[]` replacement puts the steamcmd path in place, when the directory holds no `[` |
| Installer.FillUnixCommand | rrm_installer/src/lib.rs:316 | the `{}` replacement puts the command in place, when neither path holds a `{` |
| Installer.UnixArguments | rrm_installer/src/lib.rs:307-317 | on Unix `env` runs with `HOME=<config>`, the steamcmd path, `+login`, `anonymous`, the pieces of the command and `+quit`, for a directory without space, `[` or `{` |
| Installer.RunFrom | rrm_installer/src/lib.rs:330-342 | the reference retry: a download returns the first output with a working session; any other command reports failure when its count is 5; the attempt count stays within the oracle |
| Installer.RunSteamCommand | rrm_installer/src/lib.rs:292-343 | the loop over attempts ends exactly as the reference `RunFrom` from attempt 0 |
| Installer.FailureIsNoSession | rrm_installer/src/lib.rs:331-339 | the failure text does not show a working session |
| Installer.DownloadRun | rrm_installer/src/lib.rs:330-337 | for a download the run returns the first output showing a working session; every earlier attempt was spawned and showed none; the count plays no part (no attempt cap) |
| Installer.DownloadNeverFails | rrm_installer/src/lib.rs:330-339 | a download never answers with the failure text |
| Installer.OtherRun | rrm_installer/src/lib.rs:338-342 | any other command from a count of at most 5 only ever returns the failure text, after exactly 6 - count attempts (5 from a count of 1), and does so once those attempts are spawned |
| Installer.OtherRunPastFive | rrm_installer/src/lib.rs:338-342 | any other command started above 5 never returns: with every attempt spawned it runs as long as the oracle lasts |
| Installer.InstallSync | rrm_installer/src/lib.rs:233-237 | panics exactly when the configuration directory lookup panics; otherwise the outcome is the run of the install string from count 1; success iff the output holds "Success. Downloaded item"; the output is returned as is, shows a working session and is never the failure text |
| Installer.InstallerRunSteamCommand | rrm_installer/src/lib.rs:251-253 | panics exactly when the configuration directory lookup panics; otherwise the run of `c` from `count` |
| Installer.EnvVarConfig | rrm_installer/src/lib.rs:282-290 | set iff the variable is set, and then `<value>/rrm` |
| Installer.ConfigDir | rrm_installer/src/lib.rs:256-280 | the first set variable among XDG_CONFIG_HOME, RRM_CONFIG_HOME and CONFIG_HOME, joined with `rrm`; else `<home>/.config/rrm` if `<home>/.config` exists; else `<home>/.rrm`; panics iff no variable is set and there is no home |
| Installer.ConfigDirName | rrm_installer/src/lib.rs:256-290 | every chosen directory's name ends in `rrm` |
| Installer.XdgWins | rrm_installer/src/lib.rs:256-262 | with XDG_CONFIG_HOME set, the other variables and the home directory do not matter |
| Installer.ConfigPath | rrm_installer/src/lib.rs:124-130 | `/etc/rrm/rrm` when XDG_CONFIG_HOME is not set |
| Installer.ConfigPathAgreesWithXdg | rrm_installer/src/lib.rs:124-130 | with XDG_CONFIG_HOME set, the configuration path equals the directory `get_or_create_config_dir` picks |
| Installer.InstallerSteamCmdPath | rrm_installer/src/lib.rs:247-249 | the steamcmd path under the chosen configuration directory, panicking exactly when that choice does |
| Utils.Query | src/utils.rs:49-54 | no query iff there is no filter option; a bare filter queries the positional mod name; a filter with a value queries that value |
| Utils.SearchInSteam | src/utils.rs:47-61 | without a filter the list is unchanged; otherwise it is `filter_by` with the arguments' flag set and query |
| Utils.BareFilterMatchesTitles | src/utils.rs:53-56 | a bare filter with no field switch keeps exactly the mods whose title matches the mod name |
| Utils.ExtractId | src/utils.rs:63-74 | none when the regex does not match or reports no groups; otherwise the `id` group, with a panic when that group is missing |
| RimworldMod.Parse | src/rimworldmod.rs:13-23 | panics iff there is no `.`; the author holds no `.`; the name path is not empty and its pieces hold no `.` |
| RimworldMod.Display | src/rimworldmod.rs:26-30 | the author, a `.`, then the name path joined with `.` |
| RimworldMod.DisplayParse | src/rimworldmod.rs:13-30 | displaying the parse of a text with a `.` gives the text back |
| RimworldMod.ParseDisplay | src/rimworldmod.rs:13-30 | parsing the display of a dot-free author and a non-empty, dot-free name path gives the id back |
| Strings.JoinSplit | src/rimworldmod.rs:15-18 | joining the pieces of a split with the separator gives the string back |
| RimworldMod.ParseExample | src/rimworldmod.rs:36-46 | "OskarPotocki.VanillaFactionsExpanded.Core" parses to author "OskarPotocki" and name path ["VanillaFactionsExpanded", "Core"] |
| RimworldMod.DisplayExample | src/rimworldmod.rs:48-60 | that id displays as "OskarPotocki.VanillaFactionsExpanded.Core" |
| RimworldMod.FromSteamInfo | src/rimworldmod.rs:72-83 | the package id is unknown and there are no versions |
| RimworldMod.FromSteamInfoKeepsFields | src/rimworldmod.rs:72-83 | steam id, name, author and description can be read back as the search result |
| RimworldMod.AddId | src/rimworldmod.rs:85-95 | the id becomes known and every other field is preserved |
| Locals.New | rrm_locals/src/game_path.rs:8-10 | the empty path |
| Locals.Expand | rrm_locals/src/game_path.rs:13-18 | replacing the first `~` of a path that starts with the `~` component gives the home directory followed by the rest |
| Locals.Create | rrm_locals/src/game_path.rs:12-30 | panics iff the path starts with the `~` component and HOME is unset; otherwise Ok of the expanded path if it is a directory, else Err `Path "<expanded>" does not exist` |
| Locals.NoTildeUnchanged | rrm_locals/src/game_path.rs:19-27 | a path whose first component is not `~`, including `~user/…`, is looked up unchanged and never needs HOME |
| Locals.ExpandOnce | rrm_locals/src/game_path.rs:17 | only the leading `~` is replaced; the characters are those of HOME and the path, less one `~` |
| Locals.CreatedIsDirectory | rrm_locals/src/game_path.rs:22-29 | a created game path is a directory |
| Locals.TryFrom | rrm_locals/src/game_path.rs:37-42 | `try_from` is `create` |
| Locals.ModPath | rrm_locals/src/game_path.rs:32-34 | the stored path joined with `game/Mods`, which ends the result |
| Locals.Display | rrm_locals/src/game_path.rs:44-53 | `path()` and `Display` give the stored path |
| Locals.DisplayCreated | rrm_locals/src/game_path.rs:29 | a created path stores and displays the expanded path |

## Left out

- HTTP fetching and page parsing (`get_contents`, the HTML selectors, the JSON and regex decoding in `look_for_mod`/`single_decode_element`): network and foreign libraries. The merge loop takes the decoded records and author names as inputs.
- `SkimMatcherV2`: its scoring is not in this source; matching is the parameter `matches`.
- Process spawning (`Command::output`), `exit(1)`, `set_permissions_for_steamcmd`, `PROJECT_DIR.extract` and directory creation are left out. Each steamcmd attempt's output is an oracle entry, and a failed spawn ends the run as `Exited`.
- Installer.RunFrom: does not model the panic of `String::from_utf8(..).unwrap()` on steamcmd output that is not UTF-8, because the oracle outputs are strings.
- Installer.RunFrom: does not model `usize` overflow of `count`, because it only grows by one per spawned process.
- Installer.UnixArguments: stated only for configuration directories without space, `[` or `{`. For other directories the template replacement and the split on spaces also act on the directory text.
- Installer.SteamCmdPath and Locals.ModPath: paths are joined with Unix rules, also for the Windows target.
- `Installer::init`, `new_empty`, `try_from_config`, `try_write_config`, `get_config_file` and `create_config_file`: filesystem and serde JSON.
- The builder setters (`with_rimworld_path`, `with_steamcmd_path`, `with_pager`, `enable_pager`, `disable_pager`): they take `self` by value and return nothing, so they have no effect a caller can see.
- Installer.InstallerRunSteamCommand and Installer.InstallSync: the oracle outputs stand for the attempts made under the chosen configuration directory; the directory creation that the lookup performs is not modelled.
- The install orchestrator, src/main.rs, src/search.rs and src/list.rs (dispatch, pager choice, completions): not part of this model.
- rrm_locals' `FlagSet`, `GameMods` and `Filtrable`: not part of this model. `Args.LocalAll` takes `All` as the set of the four field flags.
- `ModSteamInfo::display`, `SteamMods::display`, `more_display` and `display_numbered`: printing and paging of `gen_display`'s text.
- Environment variables that are set but not valid Unicode (`std::env::var` fails on them): the environment is a map of strings.
- Scrap.ShortColumns: stated for ids of at most 15 digits; a `usize` id can print up to 20 digits, and a wider id pushes the later fields right.
- Scrap.ModSteamInfo.GenLargeLines: the line structure is stated for fields without newlines; a newline inside a field adds lines.
- Scrap.HeaderColumns: stated for title widths of at least 8, the width of the dashes; a narrower column pushes the later headers right.
- Scrap.Capitalize: `to_uppercase` is modelled for one-byte (ASCII) first characters. A longer first character panics in `split_at(1)` before any upper-casing.
