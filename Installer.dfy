/** rrm_installer: the install string handed to steamcmd, the steamcmd
    command line and its retry loop, the configuration directory lookup and
    the error texts. */
module Installer {
  import opened Wrappers
  import opened Strings
  import Paths
  import Scrap

  // ---------------------------------------------------------------------
  // Errors

  /** `InstallerErrorCode`. */
  datatype InstallerErrorCode = ConfigFileNotAvailable | ConfigParseError | WriteConfigError

  /** `Display for InstallerErrorCode`. */
  function CodeText(code: InstallerErrorCode): (r: string)
    ensures r != [] && ':' !in r
  {
    match code
    case ConfigFileNotAvailable => "ConfigNotAvailable"
    case ConfigParseError => "ConfigParseError"
    case WriteConfigError => "WriteConfigError"
  }

  /** `InstallerError`: a code and a free-text message. */
  datatype InstallerError = InstallerError(code: InstallerErrorCode, message: string)

  /** `Display for InstallerError`: `"<code>: <message>"`. */
  function ErrorText(e: InstallerError): (r: string)
    ensures |CodeText(e.code)| + 2 <= |r|
    ensures r[..|CodeText(e.code)|] == CodeText(e.code)
    ensures r[|CodeText(e.code)|..|CodeText(e.code)| + 2] == ": "
    ensures r[|CodeText(e.code)| + 2..] == e.message
  {
    CodeText(e.code) + ": " + e.message
  }

  /** The code texts are distinct and none holds a colon. */
  lemma CodeTexts(a: InstallerErrorCode, b: InstallerErrorCode)
    ensures ':' !in CodeText(a)
    ensures CodeText(a) == CodeText(b) ==> a == b
  {
  }

  /** Two pieces free of `x`, each followed by `x`, are told apart by the first `x`. */
  lemma SplitAtFirst(a: string, b: string, x: char, u: string, v: string)
    requires x !in a && x !in b
    requires a + [x] + u == b + [x] + v
    ensures a == b && u == v
  {
    FirstOccurrence(a, x, u);
    FirstOccurrence(b, x, v);
    var s := a + [x] + u;
    assert a == s[..|a|] == b;
    assert u == s[|a| + 1..] == v;
  }

  /** An error's text determines the error: the code is the text up to
      the first colon, the message is what follows `": "`. */
  lemma {:induction false} ErrorTextInjective(e1: InstallerError, e2: InstallerError)
    requires ErrorText(e1) == ErrorText(e2)
    ensures e1 == e2
  {
    CodeTexts(e1.code, e2.code);
    CodeTexts(e2.code, e1.code);
    var c1, c2 := CodeText(e1.code), CodeText(e2.code);
    assert c1 + ": " + e1.message == c1 + [':'] + (" " + e1.message);
    assert c2 + ": " + e2.message == c2 + [':'] + (" " + e2.message);
    SplitAtFirst(c1, c2, ':', " " + e1.message, " " + e2.message);
    assert e1.message == (" " + e1.message)[1..];
    assert e2.message == (" " + e2.message)[1..];
  }

  // ---------------------------------------------------------------------
  // The install string

  /** The steamcmd directive that downloads a RimWorld (app 294100) workshop item. */
  const Directive: string := DownloadWord + " " + AppId

  /** The steamcmd command word of the directive. */
  const DownloadWord: string := "+workshop_download_item"

  /** RimWorld's Steam application id. */
  const AppId: string := "294100"

  /** The directive with its trailing space (`"+workshop_download_item 294100 "`),
      which opens the install string. */
  const DirectiveSpace: string := Directive + " "

  /** The separator between two ids (`" +workshop_download_item 294100 "`). */
  const Separator: string := " " + DirectiveSpace

  /** The decimal ids of the mods, in order. */
  function Ids(mods: seq<Scrap.ModSteamInfo>): (ids: seq<string>)
    ensures |ids| == |mods|
    ensures forall i :: 0 <= i < |mods| ==> ids[i] == Decimal(mods[i].id)
  {
    seq(|mods|, i requires 0 <= i < |mods| => Decimal(mods[i].id))
  }

  /** `Installer::gen_install_string`. */
  function GenInstallString(mods: seq<Scrap.ModSteamInfo>): (r: string)
    ensures mods == [] ==> r == DirectiveSpace
    ensures IsPrefix(Directive, r) && Contains(r, Directive)
  {
    var r := DirectiveSpace + Join(Ids(mods), Separator);
    assert r[..|Directive|] == Directive;
    assert IsPrefix(Directive, r[0..]);
    r
  }

  /** The tokens steamcmd sees for a list of ids: the directive, the app
      id and the mod id, once per mod; an empty list leaves one empty token
      where the id would be. */
  function DirectiveTokens(ids: seq<string>): (t: seq<string>)
    ensures |t| == if ids == [] then 3 else 3 * |ids|
    decreases |ids|
  {
    if |ids| <= 1 then [DownloadWord, AppId, if ids == [] then "" else ids[0]]
    else [DownloadWord, AppId, ids[0]] + DirectiveTokens(ids[1..])
  }

  lemma DirectiveWords()
    ensures ' ' !in DownloadWord && ' ' !in AppId
  {
  }

  /** One directive in front of a string splits into its two words and the string's pieces. */
  lemma SplitDirective(s: string)
    ensures Split(DirectiveSpace + s, ' ') == [DownloadWord, AppId] + Split(s, ' ')
  {
    DirectiveWords();
    SplitTwoWords(DownloadWord, AppId, s);
  }

  /** Splitting an install string on spaces gives exactly the directive
      tokens, so each id reaches steamcmd as one argument after its own
      directive. */
  lemma {:induction false} InstallStringTokens(ids: seq<string>)
    requires forall i :: 0 <= i < |ids| ==> ' ' !in ids[i]
    ensures Split(DirectiveSpace + Join(ids, Separator), ' ') == DirectiveTokens(ids)
    decreases |ids|
  {
    var joined := Join(ids, Separator);
    SplitDirective(joined);
    if ids == [] {
      assert Split("", ' ') == [""];
    } else if |ids| == 1 {
      SplitWithoutSeparator(ids[0], ' ');
    } else {
      var rest := Join(ids[1..], Separator);
      assert joined == ids[0] + Separator + rest;
      assert joined == ids[0] + [' '] + (DirectiveSpace + rest);
      SplitAround(ids[0], ' ', DirectiveSpace + rest);
      SplitWithoutSeparator(ids[0], ' ');
      InstallStringTokens(ids[1..]);
      var tail := DirectiveTokens(ids[1..]);
      assert Split(joined, ' ') == [ids[0]] + tail;
      assert DirectiveTokens(ids) == [DownloadWord, AppId, ids[0]] + tail;
    }
  }

  /** The install string of a mod list splits into the directive tokens of its ids. */
  lemma GenInstallStringTokens(mods: seq<Scrap.ModSteamInfo>)
    ensures Split(GenInstallString(mods), ' ') == DirectiveTokens(Ids(mods))
  {
    var ids := Ids(mods);
    forall i | 0 <= i < |ids| ensures ' ' !in ids[i] {
      var d := ids[i];
      assert forall k :: 0 <= k < |d| ==> IsDigit(d[k]);
    }
    InstallStringTokens(ids);
  }

  // ---------------------------------------------------------------------
  // The steamcmd command line

  /** The steamcmd executable's file name on each target. */
  function SteamCmdFile(os: Paths.Os): string {
    match os
    case MacOs => "steamcmd"
    case Linux => "steamcmd.sh"
    case Windows => "steamcmd.exe"
  }

  /** `get_steamcmd_path`: `<config>/steamcmd/<executable>`. */
  function SteamCmdPath(os: Paths.Os, config: string): (r: string)
    ensures config != [] && config[|config| - 1] != '/' ==>
      r == config + "/steamcmd/" + SteamCmdFile(os)
    ensures config == [] ==> r == "steamcmd/" + SteamCmdFile(os)
  {
    Paths.Join(Paths.Join(config, "steamcmd"), SteamCmdFile(os))
  }

  /** The steamcmd path only holds characters of the configuration directory
      besides `/` and the letters of the fixed names. */
  lemma SteamCmdPathChars(os: Paths.Os, config: string, x: char)
    requires x !in config && x in " [{"
    ensures x !in SteamCmdPath(os, config)
  {
    Paths.JoinChars(config, "steamcmd", x);
    Paths.JoinChars(Paths.Join(config, "steamcmd"), SteamCmdFile(os), x);
  }

  /** A spawned program and its arguments. */
  datatype Invocation = Invocation(program: string, args: seq<string>)

  /** The words of the argument templates. */
  const Login: string := "+login"
  const Anonymous: string := "anonymous"
  const Quit: string := "+quit"
  const HomeIs: string := "HOME="
  /** The placeholder for the command. */
  const CommandHole: string := "{}"
  /** The placeholder for the steamcmd path. */
  const SteamHole: string := "[]"
  /** The placeholder for the configuration directory. */
  const PathHole: string := "PATH"

  /** The Windows argument template, `"+login anonymous {} +quit"`. */
  const WindowsTemplate: string := Login + " " + Anonymous + " " + CommandHole + " " + Quit

  /** The Unix argument template, `"HOME=PATH [] +login anonymous {} +quit"`,
      run through `env`. */
  const UnixTemplate: string := HomeIs + PathHole + " " + SteamHole + " " + WindowsTemplate

  /** The command line of one steamcmd attempt for command `c`: Windows runs
      steamcmd itself with the template's `{}` replaced by `c`; Unix runs
      `env` with `PATH`, `[]` and `{}` replaced, in that order, by the
      configuration directory, the steamcmd path and `c`. Either way the
      arguments are the result split on single spaces. */
  function SteamInvocation(os: Paths.Os, c: string, config: string): (r: Invocation)
    ensures r.program == if os.Windows? then SteamCmdPath(os, config) else "env"
    ensures r.args != []
  {
    var steam := SteamCmdPath(os, config);
    if os.Windows? then
      Invocation(steam, Split(ReplaceAll(WindowsTemplate, CommandHole, c), ' '))
    else
      var line := ReplaceAll(ReplaceAll(ReplaceAll(UnixTemplate, PathHole, config), SteamHole, steam), CommandHole, c);
      Invocation("env", Split(line, ' '))
  }

  /** The template words hold no space and none of the placeholders' first characters. */
  lemma WordsSpaceFree()
    ensures ' ' !in Login && ' ' !in Anonymous && ' ' !in Quit && ' ' !in HomeIs
  {
  }

  lemma WordChars()
    ensures '{' !in Login && '{' !in Anonymous && '{' !in Quit && '{' !in HomeIs
    ensures '[' !in Login && '[' !in Anonymous && '[' !in Quit && '[' !in HomeIs
    ensures 'P' !in Login && 'P' !in Anonymous && 'P' !in Quit && 'P' !in HomeIs
    ensures '{' !in SteamHole && 'P' !in SteamHole && 'P' !in CommandHole && '[' !in CommandHole
    ensures CommandHole[0] == '{' && SteamHole[0] == '[' && PathHole[0] == 'P'
  {
  }

  /** The tail `<c> +quit` of a filled template. */
  function Tail(c: string): string {
    c + " " + Quit
  }

  /** The login part `+login anonymous <c> +quit` of a filled template. */
  function LoginLine(c: string): string {
    Login + " " + Anonymous + " " + Tail(c)
  }

  /** Two space-free words in front of a string split off as two pieces. */
  lemma SplitTwoWords(l: string, a: string, t: string)
    requires ' ' !in l && ' ' !in a
    ensures Split(l + [' '] + a + [' '] + t, ' ') == [l, a] + Split(t, ' ')
  {
    SplitWithoutSeparator(l, ' ');
    SplitWithoutSeparator(a, ' ');
    var inner := a + [' '] + t;
    AppendAssoc(l + [' '], a, [' ']);
    AppendAssoc(l + [' '], a + [' '], t);
    assert l + [' '] + a + [' '] + t == l + [' '] + inner;
    SplitAround(l, ' ', inner);
    SplitAround(a, ' ', t);
    assert [l] + ([a] + Split(t, ' ')) == [l, a] + Split(t, ' ');
  }

  /** A string before a space-free last word splits into its pieces and the word. */
  lemma SplitLastWord(c: string, q: string)
    requires ' ' !in q
    ensures Split(c + [' '] + q, ' ') == Split(c, ' ') + [q]
  {
    SplitWithoutSeparator(q, ' ');
    SplitAround(c, ' ', q);
  }

  /** Two space-free words, a string and a third space-free word, separated
      by single spaces, split into the words and the string's pieces. */
  lemma SplitWords(l: string, a: string, c: string, q: string)
    requires ' ' !in l && ' ' !in a && ' ' !in q
    ensures Split(l + " " + a + " " + (c + " " + q), ' ') == [l, a] + Split(c, ' ') + [q]
  {
    SplitTwoWords(l, a, c + [' '] + q);
    SplitLastWord(c, q);
    AppendAssoc([l, a], Split(c, ' '), [q]);
  }

  /** The login line splits into the login words, the command's own pieces and `+quit`. */
  lemma SplitLogin(c: string)
    ensures Split(LoginLine(c), ' ') == [Login, Anonymous] + Split(c, ' ') + [Quit]
  {
    WordsSpaceFree();
    SplitWords(Login, Anonymous, c, Quit);
  }

  /** `ReplaceAll` on `head + pat + tail` with a single, leading-character-free
      head and a tail that lacks the pattern's first character. */
  lemma ReplaceBetween(head: string, pat: string, tail: string, rep: string)
    requires pat != [] && pat[0] !in head && pat[0] !in tail
    ensures ReplaceAll(head + pat + tail, pat, rep) == head + rep + tail
  {
    AppendAssoc(head, pat, tail);
    ReplaceSkip(head, pat + tail, pat, rep);
    ReplaceOnlyAtFront(pat, tail, rep, pat[0]);
    AppendAssoc(head, rep, tail);
  }

  /** Replacing the template's `{}` inserts `c` once, whatever `c` holds. */
  lemma FillWindowsTemplate(c: string)
    ensures ReplaceAll(WindowsTemplate, CommandHole, c) == LoginLine(c)
  {
    WordChars();
    var head := Login + " " + Anonymous + " ";
    var tail := " " + Quit;
    assert WindowsTemplate == head + CommandHole + tail by {
      AppendAssoc(head + CommandHole, " ", Quit);
    }
    ReplaceBetween(head, CommandHole, tail, c);
    assert head + c + tail == LoginLine(c) by {
      AppendAssoc(head, c, tail);
      AppendAssoc(c, " ", Quit);
    }
  }

  /** On Windows steamcmd gets `+login anonymous`, the pieces of `c` and `+quit`. */
  lemma WindowsArguments(c: string, config: string)
    ensures SteamInvocation(Paths.Windows, c, config) ==
      Invocation(SteamCmdPath(Paths.Windows, config), [Login, Anonymous] + Split(c, ' ') + [Quit])
  {
    FillWindowsTemplate(c);
    SplitLogin(c);
  }

  /** The three replacements of the Unix template, one at a time. */
  lemma FillUnixPath(p: string)
    ensures ReplaceAll(UnixTemplate, PathHole, p) == HomeIs + p + " " + SteamHole + " " + WindowsTemplate
  {
    WordChars();
    var rest := " " + SteamHole + " " + WindowsTemplate;
    assert 'P' !in rest;
    assert UnixTemplate == HomeIs + PathHole + rest by {
      Regroup4(HomeIs + PathHole, " ", SteamHole, " ");
      AppendAssoc(HomeIs + PathHole, " " + SteamHole + " ", WindowsTemplate);
    }
    ReplaceBetween(HomeIs, PathHole, rest, p);
    assert HomeIs + p + rest == HomeIs + p + " " + SteamHole + " " + WindowsTemplate by {
      Regroup4(HomeIs + p, " ", SteamHole, " ");
      AppendAssoc(HomeIs + p, " " + SteamHole + " ", WindowsTemplate);
    }
  }

  lemma FillUnixSteam(p: string, steam: string)
    requires '[' !in p
    ensures ReplaceAll(HomeIs + p + " " + SteamHole + " " + WindowsTemplate, SteamHole, steam)
      == HomeIs + p + " " + steam + " " + WindowsTemplate
  {
    WordChars();
    var head := HomeIs + p + " ";
    var tail := " " + WindowsTemplate;
    assert '[' !in tail;
    assert head + SteamHole + " " + WindowsTemplate == head + SteamHole + tail by {
      AppendAssoc(head + SteamHole, " ", WindowsTemplate);
    }
    ReplaceBetween(head, SteamHole, tail, steam);
    assert head + steam + tail == head + steam + " " + WindowsTemplate by {
      AppendAssoc(head + steam, " ", WindowsTemplate);
    }
  }

  lemma FillUnixCommand(p: string, steam: string, c: string)
    requires '{' !in p && '{' !in steam
    ensures ReplaceAll(HomeIs + p + " " + steam + " " + WindowsTemplate, CommandHole, c)
      == HomeIs + p + " " + steam + " " + LoginLine(c)
  {
    WordChars();
    var front := HomeIs + p + " " + steam + " ";
    var words := Login + " " + Anonymous + " ";
    var head := front + words;
    var tail := " " + Quit;
    assert '{' !in head;
    assert WindowsTemplate == words + CommandHole + tail by {
      AppendAssoc(words + CommandHole, " ", Quit);
    }
    assert front + WindowsTemplate == head + CommandHole + tail by {
      AppendAssoc(front, words + CommandHole, tail);
      AppendAssoc(front, words, CommandHole);
    }
    ReplaceBetween(head, CommandHole, tail, c);
    assert LoginLine(c) == words + c + tail by {
      AppendAssoc(words, c, tail);
      AppendAssoc(c, " ", Quit);
    }
    assert head + c + tail == front + LoginLine(c) by {
      AppendAssoc(front, words + c, tail);
      AppendAssoc(front, words, c);
    }
  }

  /** The Unix invocation unfolded once. */
  lemma UnixInvocation(os: Paths.Os, c: string, config: string)
    requires !os.Windows?
    ensures SteamInvocation(os, c, config) == Invocation("env", Split(ReplaceAll(ReplaceAll(
      ReplaceAll(UnixTemplate, PathHole, config), SteamHole, SteamCmdPath(os, config)), CommandHole, c), ' '))
  {
  }

  lemma Arrange<T>(a: T, b: T, c: T, d: T, s: seq<T>, t: seq<T>)
    ensures [a] + ([b] + ([c, d] + s + t)) == [a, b, c, d] + s + t
  {
    assert [a, b, c, d] == [a] + ([b] + [c, d]);
  }

  /** On Unix `env` gets `HOME=<config>`, the steamcmd path, `+login
      anonymous`, the pieces of `c` and `+quit`, provided the configuration
      directory holds no space, `[` or `{` (each of which the template
      handling would treat as structure). */
  lemma UnixArguments(os: Paths.Os, c: string, config: string)
    requires !os.Windows?
    requires ' ' !in config && '[' !in config && '{' !in config
    ensures SteamInvocation(os, c, config) ==
      Invocation("env", [HomeIs + config, SteamCmdPath(os, config), Login, Anonymous]
        + Split(c, ' ') + [Quit])
  {
    WordsSpaceFree();
    var steam := SteamCmdPath(os, config);
    SteamCmdPathChars(os, config, ' ');
    SteamCmdPathChars(os, config, '{');
    FillUnixPath(config);
    FillUnixSteam(config, steam);
    FillUnixCommand(config, steam, c);
    var home := HomeIs + config;
    var line := LoginLine(c);
    assert HomeIs + config + " " + steam + " " + line == home + [' '] + (steam + [' '] + line) by {
      AppendAssoc(home + [' '], steam + [' '], line);
      AppendAssoc(home + [' '], steam, [' ']);
    }
    assert ' ' !in home;
    SplitAround(home, ' ', steam + [' '] + line);
    SplitAround(steam, ' ', line);
    SplitWithoutSeparator(home, ' ');
    SplitWithoutSeparator(steam, ' ');
    SplitLogin(c);
    var sc := Split(c, ' ');
    var filled := home + [' '] + (steam + [' '] + line);
    assert Split(filled, ' ') == [home] + ([steam] + ([Login, Anonymous] + sc + [Quit]));
    Arrange(home, steam, Login, Anonymous, sc, [Quit]);
    var step1 := ReplaceAll(UnixTemplate, PathHole, config);
    var step2 := ReplaceAll(step1, SteamHole, steam);
    assert ReplaceAll(step2, CommandHole, c) == filled;
    UnixInvocation(os, c, config);
  }

  // ---------------------------------------------------------------------
  // The retry loop of `run_steam_command`

  /** The three lines of a steamcmd session that logged in. */
  const ConnectedOk: string := "Connecting anonymously to Steam Public...OK"
  const ClientConfigOk: string := "Waiting for client config...OK"
  const UserInfoOk: string := "Waiting for user info...OK"

  /** What a command that is not a download yields after its fifth attempt. */
  const FailedToInstall: string := "Error: Failed to install"

  /** An attempt's output shows a working session. */
  predicate SessionOk(out: string) {
    Contains(out, ConnectedOk) && Contains(out, ClientConfigOk) && Contains(out, UserInfoOk)
  }

  /** The command asks for a workshop download. */
  predicate IsDownload(c: string) {
    Contains(c, Directive)
  }

  /** The end of a run of `run_steam_command`, after `attempts` spawns:
      the string it returns; the process exiting because steamcmd could not
      be spawned; or, when the oracle runs out, a run still retrying. */
  datatype SteamRun = Returned(text: string, attempts: nat) | Exited(attempts: nat) | Unfinished

  /** The reference definition of `run_steam_command(c, _, count)`, from
      attempt `k` on: `outputs[j]` is what attempt `j` printed, or `None`
      when it could not be spawned. A download returns the first output
      showing a working session and retries otherwise; any other command
      retries until its count reaches 5 and then reports failure. */
  function RunFrom(c: string, count: nat, outputs: seq<Option<string>>, k: nat): (r: SteamRun)
    requires k <= |outputs|
    ensures r.Returned? || r.Exited? ==> k < r.attempts <= |outputs|
    decreases |outputs| - k
  {
    if k == |outputs| then Unfinished
    else match outputs[k]
      case None => Exited(k + 1)
      case Some(out) =>
        if IsDownload(c) && SessionOk(out) then Returned(out, k + 1)
        else if IsDownload(c) then RunFrom(c, count + 1, outputs, k + 1)
        else if count == 5 then Returned(FailedToInstall, k + 1)
        else RunFrom(c, count + 1, outputs, k + 1)
  }

  /** `run_steam_command`, one spawn per round of the loop. */
  method RunSteamCommand(c: string, count: nat, outputs: seq<Option<string>>) returns (r: SteamRun)
    ensures r == RunFrom(c, count, outputs, 0)
  {
    var k, n := 0, count;
    while k < |outputs|
      invariant 0 <= k <= |outputs| && n == count + k
      invariant RunFrom(c, count, outputs, 0) == RunFrom(c, n, outputs, k)
      decreases |outputs| - k
    {
      match outputs[k] {
        case None =>
          return Exited(k + 1);
        case Some(out) =>
          if IsDownload(c) && SessionOk(out) {
            return Returned(out, k + 1);
          } else if !IsDownload(c) && n == 5 {
            return Returned(FailedToInstall, k + 1);
          }
      }
      k, n := k + 1, n + 1;
    }
    return Unfinished;
  }

  /** The failure text shows no working session. */
  lemma FailureIsNoSession()
    ensures !SessionOk(FailedToInstall)
  {
    assert !Contains(FailedToInstall, ConnectedOk) by {
      forall i | 0 <= i <= |FailedToInstall| ensures !IsPrefix(ConnectedOk, FailedToInstall[i..]) {
      }
    }
  }

  /** A download returns the first output that shows a working session,
      whatever the count: there is no attempt cap, and every attempt before
      it was spawned and showed no session. */
  lemma {:induction false} DownloadRun(c: string, count: nat, outputs: seq<Option<string>>, k: nat)
    requires IsDownload(c) && k <= |outputs|
    ensures var r := RunFrom(c, count, outputs, k);
      && (r.Returned? ==> outputs[r.attempts - 1] == Some(r.text) && SessionOk(r.text))
      && (r.Returned? || r.Exited? ==> forall j :: k <= j < r.attempts - 1 ==>
            outputs[j].Some? && !SessionOk(outputs[j].value))
      && (r.Exited? ==> outputs[r.attempts - 1].None?)
      && (r.Unfinished? ==> forall j :: k <= j < |outputs| ==> outputs[j].Some? && !SessionOk(outputs[j].value))
      && r == RunFrom(c, 1, outputs, k)
    decreases |outputs| - k
  {
    if k < |outputs| && outputs[k].Some? && !SessionOk(outputs[k].value) {
      DownloadRun(c, count + 1, outputs, k + 1);
      DownloadRun(c, 2, outputs, k + 1);
    }
  }

  /** A download never answers with the failure text. */
  lemma DownloadNeverFails(c: string, count: nat, outputs: seq<Option<string>>)
    requires IsDownload(c)
    ensures RunFrom(c, count, outputs, 0).Returned? ==> RunFrom(c, count, outputs, 0).text != FailedToInstall
  {
    DownloadRun(c, count, outputs, 0);
    FailureIsNoSession();
  }

  /** Any other command never returns steamcmd's own output: from a count
      of at most 5, once `6 - count` attempts have been spawned, it answers
      with the failure text; from a count of 1 that is exactly 5 attempts. */
  lemma {:induction false} OtherRun(c: string, count: nat, outputs: seq<Option<string>>, k: nat)
    requires !IsDownload(c) && count <= 5 && k <= |outputs|
    ensures var r := RunFrom(c, count, outputs, k);
      && (r.Returned? ==> r.text == FailedToInstall && r.attempts == k + 6 - count)
      && (k + 6 - count <= |outputs| && (forall j :: k <= j < k + 6 - count ==> outputs[j].Some?)
          ==> r.Returned?)
    decreases |outputs| - k
  {
    if k < |outputs| && outputs[k].Some? && count < 5 {
      OtherRun(c, count + 1, outputs, k + 1);
    }
  }

  /** Any other command started with a count above 5 never returns: the
      check for 5 is an equality, so the count only grows past it. */
  lemma {:induction false} OtherRunPastFive(c: string, count: nat, outputs: seq<Option<string>>, k: nat)
    requires !IsDownload(c) && count > 5 && k <= |outputs|
    ensures !RunFrom(c, count, outputs, k).Returned?
    ensures (forall j :: k <= j < |outputs| ==> outputs[j].Some?) ==> RunFrom(c, count, outputs, k).Unfinished?
    decreases |outputs| - k
  {
    if k < |outputs| && outputs[k].Some? {
      OtherRunPastFive(c, count + 1, outputs, k + 1);
    }
  }

  // ---------------------------------------------------------------------
  // Installing

  /** The line steamcmd prints for a finished download. */
  const Downloaded: string := "Success. Downloaded item"

  /** The end of `Installer::install_sync`: `(success, output)` when
      `run_steam_command` returned, a panic when no configuration directory
      can be found, the process exiting, or a run still retrying when the
      oracle runs out. */
  datatype InstallOutcome = Finished(success: bool, output: string) | ConfigPanicked | SpawnExited | StillRetrying

  /** `Installer::run_steam_command` (the method): looks up the configuration
      directory, panicking like `get_or_create_config_dir` does, and then
      runs `c` from `count`. The oracle outputs stand for the attempts made
      under that directory. */
  method InstallerRunSteamCommand(c: string, count: nat, env: Env, home: Option<string>,
                                  pathExists: string -> bool, outputs: seq<Option<string>>)
    returns (r: Outcome<SteamRun>)
    ensures r.Panicked? <==> ConfigDir(env, home, pathExists).Panicked?
    ensures r.Normal? ==> r.value == RunFrom(c, count, outputs, 0)
  {
    var config := ConfigDir(env, home, pathExists);
    if config.Panicked? {
      return Panicked;
    }
    var run := RunSteamCommand(c, count, outputs);
    r := Normal(run);
  }

  /** `Installer::install_sync`: looks up the configuration directory (the
      lookup panics before any attempt when it finds none), runs the install
      string of `mods` from a count of 1 and reports success iff the output
      holds the download line. */
  method InstallSync(mods: seq<Scrap.ModSteamInfo>, env: Env, home: Option<string>,
                     pathExists: string -> bool, outputs: seq<Option<string>>)
    returns (r: InstallOutcome)
    ensures r.ConfigPanicked? <==> ConfigDir(env, home, pathExists).Panicked?
    ensures ConfigDir(env, home, pathExists).Normal? ==>
      var run := RunFrom(GenInstallString(mods), 1, outputs, 0);
      && (r.Finished? <==> run.Returned?)
      && (r.SpawnExited? <==> run.Exited?)
      && (r.Finished? ==> r.output == run.text && (r.success <==> Contains(r.output, Downloaded)))
    ensures r.Finished? ==> SessionOk(r.output) && r.output != FailedToInstall
  {
    var c := GenInstallString(mods);
    var attempt := InstallerRunSteamCommand(c, 1, env, home, pathExists, outputs);
    if attempt.Panicked? {
      return ConfigPanicked;
    }
    var run := attempt.value;
    DownloadRun(c, 1, outputs, 0);
    DownloadNeverFails(c, 1, outputs);
    match run
    case Returned(a, _) => r := Finished(Contains(a, Downloaded), a);
    case Exited(_) => r := SpawnExited;
    case Unfinished => r := StillRetrying;
  }

  // ---------------------------------------------------------------------
  // The configuration directory

  /** The process environment: the variables that are set, with their values. */
  type Env = map<string, string>

  const XdgConfigHome: string := "XDG_CONFIG_HOME"
  const RrmConfigHome: string := "RRM_CONFIG_HOME"
  const ConfigHome: string := "CONFIG_HOME"

  /** `env_var_config(var)`: `<value>/rrm` when the variable is set. */
  function EnvVarConfig(env: Env, name: string): (r: Option<string>)
    ensures r.Some? <==> name in env
    ensures r.Some? ==> r.value == Paths.Join(env[name], "rrm")
  {
    if name in env then Some(Paths.Join(env[name], "rrm")) else None
  }

  /** `get_or_create_config_dir`: the first of `XDG_CONFIG_HOME`,
      `RRM_CONFIG_HOME` and `CONFIG_HOME` that is set, joined with `rrm`;
      otherwise `<home>/.config/rrm` when `<home>/.config` exists, and
      `<home>/.rrm` when it does not. Without a home directory the `unwrap`
      panics. `pathExists` answers the filesystem query. */
  function ConfigDir(env: Env, home: Option<string>, pathExists: string -> bool): (r: Outcome<string>)
    ensures XdgConfigHome in env ==> r == Normal(Paths.Join(env[XdgConfigHome], "rrm"))
    ensures XdgConfigHome !in env && RrmConfigHome in env ==> r == Normal(Paths.Join(env[RrmConfigHome], "rrm"))
    ensures XdgConfigHome !in env && RrmConfigHome !in env && ConfigHome in env ==>
      r == Normal(Paths.Join(env[ConfigHome], "rrm"))
    ensures XdgConfigHome !in env && RrmConfigHome !in env && ConfigHome !in env ==>
      (r.Panicked? <==> home.None?)
    ensures XdgConfigHome !in env && RrmConfigHome !in env && ConfigHome !in env && home.Some? ==>
      r == Normal(
        var dotConfig := Paths.Join(home.value, ".config");
        if pathExists(dotConfig) then Paths.Join(dotConfig, "rrm") else Paths.Join(home.value, ".rrm"))
  {
    var fromEnv :=
      match EnvVarConfig(env, XdgConfigHome)
      case Some(p) => Some(p)
      case None =>
        match EnvVarConfig(env, RrmConfigHome)
        case Some(p) => Some(p)
        case None => EnvVarConfig(env, ConfigHome);
    if fromEnv.Some? then Normal(fromEnv.value)
    else match home
      case None => Panicked
      case Some(h) =>
        var dotConfig := Paths.Join(h, ".config");
        if pathExists(dotConfig) then Normal(Paths.Join(dotConfig, "rrm"))
        else Normal(Paths.Join(h, ".rrm"))
  }

  /** Every directory the lookup picks is named `rrm` or `.rrm`. */
  lemma ConfigDirName(env: Env, home: Option<string>, pathExists: string -> bool)
    ensures var r := ConfigDir(env, home, pathExists);
      r.Normal? ==> |r.value| >= 3 && r.value[|r.value| - 3..] == "rrm"
  {
    var r := ConfigDir(env, home, pathExists);
    if XdgConfigHome in env {
      Paths.JoinEndsWith(env[XdgConfigHome], "rrm");
    } else if RrmConfigHome in env {
      Paths.JoinEndsWith(env[RrmConfigHome], "rrm");
    } else if ConfigHome in env {
      Paths.JoinEndsWith(env[ConfigHome], "rrm");
    } else if home.Some? {
      var dotConfig := Paths.Join(home.value, ".config");
      if pathExists(dotConfig) {
        Paths.JoinEndsWith(dotConfig, "rrm");
      } else {
        Paths.JoinEndsWith(home.value, ".rrm");
        var j := r.value;
        assert j[|j| - 3..] == j[|j| - 4..][1..];
      }
    }
  }

  /** A set variable hides the ones after it: with `XDG_CONFIG_HOME` set,
      neither the other variables nor the home directory matter. */
  lemma XdgWins(env1: Env, env2: Env, home1: Option<string>, home2: Option<string>,
                pathExists1: string -> bool, pathExists2: string -> bool)
    requires XdgConfigHome in env1 && XdgConfigHome in env2
    requires env1[XdgConfigHome] == env2[XdgConfigHome]
    ensures ConfigDir(env1, home1, pathExists1) == ConfigDir(env2, home2, pathExists2)
  {
  }

  /** `Installer::get_config_path`: `$XDG_CONFIG_HOME/rrm`, or `/etc/rrm/rrm`
      when the variable is not set. */
  function ConfigPath(env: Env): (r: string)
    ensures XdgConfigHome !in env ==> r == "/etc/rrm/rrm"
  {
    Paths.Join(if XdgConfigHome in env then env[XdgConfigHome] else "/etc/rrm", "rrm")
  }

  /** With `XDG_CONFIG_HOME` set, the configuration file's directory is the
      configuration directory. Without it the file's directory is
      `/etc/rrm/rrm`, which the directory lookup picks only when one of the
      other variables holds `/etc/rrm`. */
  lemma ConfigPathAgreesWithXdg(env: Env, home: Option<string>, pathExists: string -> bool)
    requires XdgConfigHome in env
    ensures ConfigDir(env, home, pathExists) == Normal(ConfigPath(env))
  {
  }

  /** `Installer::get_steamcmd_path`: the steamcmd path under the configuration directory. */
  function InstallerSteamCmdPath(os: Paths.Os, env: Env, home: Option<string>, pathExists: string -> bool): (r: Outcome<string>)
    ensures r.Panicked? <==> ConfigDir(env, home, pathExists).Panicked?
    ensures r.Normal? ==> r.value == SteamCmdPath(os, ConfigDir(env, home, pathExists).value)
  {
    match ConfigDir(env, home, pathExists)
    case Normal(d) => Normal(SteamCmdPath(os, d))
    case Panicked => Panicked
  }
}
