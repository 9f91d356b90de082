/** The Steam Workshop search results of rrm_scrap: the mod records, their
    conversion from the page's JSON, the author merge of a result page, the
    field filter over a result list and its text rendering. */
module Scrap {
  import Wrappers
  import opened Strings

  /** One filter field; the values are the bits of a `FlagSet<FilterBy>`. */
  datatype FilterBy = SteamID | Title | Description | Author | None

  /** A `FlagSet<FilterBy>`: the flags whose bits are set. */
  type FlagSet = set<FilterBy>

  /** `FilterBy::All`: every field flag, without `None`. */
  const All: FlagSet := {SteamID, Title, Description, Author}

  function Bit(f: FilterBy): nat {
    match f
    case SteamID => 1
    case Title => 2
    case Description => 4
    case Author => 8
    case None => 16
  }

  /** The `u8` value of a flag set. */
  function Bits(fs: FlagSet): (b: nat)
    ensures b < 32
  {
    (if SteamID in fs then 1 else 0) + (if Title in fs then 2 else 0)
    + (if Description in fs then 4 else 0) + (if Author in fs then 8 else 0)
    + (if None in fs then 16 else 0)
  }

  /** The flag set of a `u8` value below 32. */
  function FromBits(b: nat): (fs: FlagSet)
    requires b < 32
  {
    (if b % 2 == 1 then {SteamID} else {}) + (if b / 2 % 2 == 1 then {Title} else {})
    + (if b / 4 % 2 == 1 then {Description} else {}) + (if b / 8 % 2 == 1 then {Author} else {})
    + (if b / 16 == 1 then {None} else {})
  }

  /** The declared bit values: `All` is 0b01111 and leaves out `None`. */
  lemma AllBits()
    ensures Bits(All) == 15 && Bits({None}) == 16 && None !in All
    ensures forall f :: Bits({f}) == Bit(f)
  {
  }

  /** A flag set and its bits determine each other. */
  lemma BitsRoundTrip(fs: FlagSet)
    ensures FromBits(Bits(fs)) == fs
  {
    var v := Bits(fs);
    assert v % 2 == 1 <==> SteamID in fs;
    assert v / 2 % 2 == 1 <==> Title in fs;
    assert v / 4 % 2 == 1 <==> Description in fs;
    assert v / 8 % 2 == 1 <==> Author in fs;
    assert v / 16 == 1 <==> None in fs;
    forall f ensures f in FromBits(v) <==> f in fs {
      match f
      case SteamID =>
      case Title =>
      case Description =>
      case Author =>
      case None =>
    }
  }

  /** Every value below 32 is the bits of exactly one flag set. */
  lemma FromBitsRoundTrip(b: nat)
    requires b < 32
    ensures Bits(FromBits(b)) == b
  {
    assert b == b % 2 + 2 * (b / 2 % 2) + 4 * (b / 4 % 2) + 8 * (b / 8 % 2) + 16 * (b / 16);
  }

  /** `ModSteamInfo`: one Workshop item. */
  datatype ModSteamInfo = ModSteamInfo(id: Usize, title: string, description: string, author: string)
  {
    /** The multi-line form (`gen_large`): the name, id, author and
        description lines, in that order, each ended by a newline. */
    function GenLarge(): string {
      var nameLine := "Name     : " + title;
      var idLine := "Steam ID : " + Decimal(id);
      var authorLine := "Author   : " + author;
      var descriptionLine := "Description: " + description;
      nameLine + ("\n" + (idLine + ("\n" + (authorLine + ("\n" + (descriptionLine + "\n"))))))
    }

    /** When the fields hold no newline, the long form is the name, id,
        author and description lines, in that order, each ended by a newline. */
    lemma GenLargeLines()
      requires '\n' !in title && '\n' !in author && '\n' !in description
      ensures Split(GenLarge(), '\n') == ["Name     : " + title, "Steam ID : " + Decimal(id),
                                         "Author   : " + author, "Description: " + description, ""]
    {
      SplitLines4("Name     : " + title, "Steam ID : " + Decimal(id),
                  "Author   : " + author, "Description: " + description, '\n');
    }

    /** One table row (`gen_short`): the id right-aligned in 15 columns, the
        title left-aligned in `biggestName`, the author left-aligned in 20. */
    function GenShort(biggestName: nat): (r: string)
      ensures |r| == (if |Decimal(id)| < 15 then 15 else |Decimal(id)|) + 3
        + (if |title| < biggestName then biggestName else |title|) + 3
        + (if |author| < 20 then 20 else |author|)
      ensures '\n' !in title && '\n' !in author ==> '\n' !in r
    {
      TableLineChars(Decimal(id), title, author, biggestName, '\n');
      TableLine(Decimal(id), title, author, biggestName)
    }

    /** `gen_display`: the chosen form and one newline. */
    function GenDisplay(form: DisplayType, biggestName: nat): (r: string)
      ensures |r| >= 1 && r[|r| - 1] == '\n'
      ensures r[..|r| - 1] == if form.Long? then GenLarge() else GenShort(biggestName)
    {
      (if form.Long? then GenLarge() else GenShort(biggestName)) + "\n"
    }

    /** The table headers (`gen_headers`): the titles line and the rule
        line, laid out like the rows. */
    static function GenHeaders(size: nat): string {
      HeaderTitles(size) + "\n" + HeaderRule(size)
    }

    /** The table headers are two lines: the titles, then the rule. */
    static lemma HeaderLines(size: nat)
      ensures Split(GenHeaders(size), '\n') == [HeaderTitles(size), HeaderRule(size)]
    {
      TitlesHaveNoNewline(size);
      RuleHasNoNewline(size);
      assert '\n' !in HeaderTitles(size) by {
        assert forall k :: 0 <= k < |HeaderTitles(size)| ==> HeaderTitles(size)[k] == ("      " + HeaderTitles(size))[k + 6];
      }
      SplitLine(HeaderTitles(size), '\n', HeaderRule(size));
      SplitWithoutSeparator(HeaderRule(size), '\n');
    }
  }

  /** The display forms of rrm_locals' `DisplayType`. */
  datatype DisplayType = Short | Long

  /** `ModSteamInfoRaw`: the JSON object of one item; `author` may be absent. */
  datatype ModSteamInfoRaw = ModSteamInfoRaw(id: string, title: string, description: string, author: Wrappers.Option<string>)

  /** `From<ModSteamInfoRaw>`: the id is parsed as a `usize` (the `unwrap`
      panics when it is not one), the texts are copied and a missing author is
      the empty string. */
  function FromRaw(raw: ModSteamInfoRaw): (r: Wrappers.Outcome<ModSteamInfo>)
    ensures r.Normal? <==> ParseUsize(raw.id).Some?
    ensures r.Normal? ==> ParseUsize(raw.id) == Wrappers.Some(r.value.id)
    ensures r.Normal? ==> r.value.title == raw.title && r.value.description == raw.description
    ensures r.Normal? ==> r.value.author == (if raw.author.Some? then raw.author.value else "")
  {
    match ParseUsize(raw.id)
    case None => Wrappers.Panicked
    case Some(n) =>
      Wrappers.Normal(ModSteamInfo(n, raw.title, raw.description,
                                   match raw.author case Some(a) => a case None => ""))
  }

  /** A raw record that converts to `m`. The source never turns a
      `ModSteamInfo` back into a raw record; this inverse exists only to
      state that the conversion loses nothing. */
  function ToRaw(m: ModSteamInfo): ModSteamInfoRaw {
    ModSteamInfoRaw(Decimal(m.id), m.title, m.description, Wrappers.Some(m.author))
  }

  /** Converting the raw record `ToRaw` builds gives the record back. */
  lemma FromRawToRaw(m: ModSteamInfo)
    ensures FromRaw(ToRaw(m)) == Wrappers.Normal(m)
  {
    ParseDecimal(m.id);
  }

  function AsciiUpper(c: char): char {
    if 'a' <= c <= 'z' then (c as int - 'a' as int + 'A' as int) as char else c
  }

  /** `capitalize`: `split_at(1)` panics on an empty string and when the first
      character is not one byte; otherwise the first character is upper-cased
      (for an ASCII character `to_uppercase` is the ASCII upper case). */
  function Capitalize(s: string): (r: Wrappers.Outcome<string>)
    ensures r.Normal? <==> s != [] && Utf8Width(s[0]) == 1
    ensures r.Normal? ==> |r.value| == |s| && r.value[0] == AsciiUpper(s[0]) && r.value[1..] == s[1..]
  {
    if s == [] || Utf8Width(s[0]) != 1 then Wrappers.Panicked
    else Wrappers.Normal([AsciiUpper(s[0])] + s[1..])
  }

  /** Capitalizing twice is capitalizing once. */
  lemma CapitalizeIdempotent(s: string)
    requires Capitalize(s).Normal?
    ensures Capitalize(Capitalize(s).value) == Capitalize(s)
  {
    var c := s[0];
    assert Utf8Width(AsciiUpper(c)) == 1;
  }

  /** The largest UTF-8 title length in `mods`, 0 for none. */
  function MaxTitleBytes(mods: seq<ModSteamInfo>): (r: nat)
    ensures forall k :: 0 <= k < |mods| ==> ByteLen(mods[k].title) <= r
    ensures mods == [] ==> r == 0
    ensures mods != [] ==> exists k :: 0 <= k < |mods| && ByteLen(mods[k].title) == r
  {
    if mods == [] then 0
    else
      var init := mods[..|mods| - 1];
      var prev := MaxTitleBytes(init);
      var last := ByteLen(mods[|mods| - 1].title);
      assert forall k :: 0 <= k < |init| ==> init[k] == mods[k];
      if last > prev then last else prev
  }

  /** Every title fits, in characters, in a column as wide as the largest
      title's byte length. */
  lemma TitlesFitColumn(mods: seq<ModSteamInfo>)
    ensures forall k :: 0 <= k < |mods| ==> |mods[k].title| <= MaxTitleBytes(mods)
  {
    forall k | 0 <= k < |mods|
      ensures |mods[k].title| <= MaxTitleBytes(mods)
    {
      CharsAtMostBytes(mods[k].title);
    }
  }

  /** The fields a flag set checks: `Title` the title, `Author` and (as
      written) `Description` the author, `SteamID` the decimal id. */
  predicate Selected(m: ModSteamInfo, fs: FlagSet, query: string, matches: (string, string) -> bool) {
    || (Title in fs && matches(m.title, query))
    || ((Author in fs || Description in fs) && matches(m.author, query))
    || (SteamID in fs && matches(Decimal(m.id), query))
  }

  /** The per-record test of `filter_by` as written: each field is checked
      when its own flag or `All` is contained. */
  predicate MatchesAsWritten(m: ModSteamInfo, fs: FlagSet, value: string, matches: (string, string) -> bool) {
    (if All <= fs || Title in fs then matches(m.title, value) else false)
    || (if Author in fs || All <= fs then matches(m.author, value) else false)
    || (if Description in fs || All <= fs then matches(m.author, value) else false)
    || (if SteamID in fs || All <= fs then matches(Decimal(m.id), value) else false)
  }

  /** Containing `All` adds nothing to the individual checks, so the test of
      `filter_by` checks exactly the fields `Selected` names. */
  lemma AsWrittenIsSelected(m: ModSteamInfo, fs: FlagSet, value: string, matches: (string, string) -> bool)
    ensures MatchesAsWritten(m, fs, value, matches) <==> Selected(m, fs, value, matches)
  {
  }

  /** The records of `mods` that are selected, in their order. */
  function Filtered(mods: seq<ModSteamInfo>, fs: FlagSet, query: string, matches: (string, string) -> bool): seq<ModSteamInfo>
  {
    if mods == [] then []
    else
      var last := mods[|mods| - 1];
      Filtered(mods[..|mods| - 1], fs, query, matches) + (if Selected(last, fs, query, matches) then [last] else [])
  }

  /** One more record extends the filtered prefix by that record iff the
      test of `filter_by` accepts it. */
  lemma FilteredStep(mods: seq<ModSteamInfo>, i: nat, fs: FlagSet, query: string, matches: (string, string) -> bool)
    requires i < |mods|
    ensures MatchesAsWritten(mods[i], fs, query, matches) ==>
      Filtered(mods[..i + 1], fs, query, matches) == Filtered(mods[..i], fs, query, matches) + [mods[i]]
    ensures !MatchesAsWritten(mods[i], fs, query, matches) ==>
      Filtered(mods[..i + 1], fs, query, matches) == Filtered(mods[..i], fs, query, matches)
  {
    assert mods[..i + 1][..i] == mods[..i];
    AsWrittenIsSelected(mods[i], fs, query, matches);
  }

  /** Appending a record raises the largest title length to its own when larger. */
  lemma MaxTitleBytesStep(kept: seq<ModSteamInfo>, m: ModSteamInfo)
    ensures MaxTitleBytes(kept + [m]) ==
      if ByteLen(m.title) > MaxTitleBytes(kept) then ByteLen(m.title) else MaxTitleBytes(kept)
  {
    assert (kept + [m])[..|kept|] == kept;
  }

  /** The largest title length of one more leading record. */
  lemma MaxTitleBytesPrefix(records: seq<ModSteamInfo>, i: nat)
    requires i < |records|
    ensures MaxTitleBytes(records[..i + 1]) ==
      if ByteLen(records[i].title) > MaxTitleBytes(records[..i]) then ByteLen(records[i].title) else MaxTitleBytes(records[..i])
  {
    assert records[..i + 1][..i] == records[..i];
  }

  /** `SteamMods`: a result list, the width of its title column and how it is
      displayed. */
  datatype SteamMods = SteamMods(mods: seq<ModSteamInfo>, biggestNameSize: nat, displayType: Wrappers.Option<DisplayType>)
  {
    /** `filter_by`: a new list holding the records for which some checked
        field matches `value`, in order, with the largest kept title length
        and the same display type. */
    method FilterBy(fs: FlagSet, value: string, matches: (string, string) -> bool) returns (filtered: SteamMods)
      ensures filtered.mods == Filtered(mods, fs, value, matches)
      ensures filtered.biggestNameSize == MaxTitleBytes(filtered.mods)
      ensures filtered.displayType == displayType
    {
      var kept: seq<ModSteamInfo> := [];
      var biggest: nat := 0;
      var i := 0;
      while i < |mods|
        invariant 0 <= i <= |mods|
        invariant kept == Filtered(mods[..i], fs, value, matches)
        invariant biggest == MaxTitleBytes(kept)
      {
        var m := mods[i];
        FilteredStep(mods, i, fs, value, matches);
        if MatchesAsWritten(m, fs, value, matches) {
          MaxTitleBytesStep(kept, m);
          if ByteLen(m.title) > biggest {
            biggest := ByteLen(m.title);
          }
          kept := kept + [m];
        }
        i := i + 1;
      }
      filtered := SteamMods(kept, biggest, displayType);
      assert mods[..|mods|] == mods;
    }

    /** `gen_display`: with a display type, the headers and a newline (only
        for `Short`) and then every record's display; without one, the
        headers shifted for an index column and every record's short display
        behind its index. */
    method GenDisplay() returns (result: string)
      ensures displayType == Wrappers.Some(Short) ==>
        result == ModSteamInfo.GenHeaders(biggestNameSize) + "\n" + Rows(mods, Short, biggestNameSize)
      ensures displayType == Wrappers.Some(Long) ==> result == Rows(mods, Long, biggestNameSize)
      ensures displayType.None? ==> result == NumberedHeaders(biggestNameSize) + NumberedRows(mods, biggestNameSize)
    {
      if displayType.Some? {
        result := TypedDisplay(mods, displayType.value, biggestNameSize);
      } else {
        result := NumberedDisplay(mods, biggestNameSize);
      }
    }
  }

  /** The branch of `gen_display` with a display type. */
  method TypedDisplay(mods: seq<ModSteamInfo>, typ: DisplayType, w: nat) returns (result: string)
    ensures typ.Short? ==> result == ModSteamInfo.GenHeaders(w) + "\n" + Rows(mods, Short, w)
    ensures typ.Long? ==> result == Rows(mods, Long, w)
  {
    result := "";
    if typ.Short? {
      var headers := ModSteamInfo.GenHeaders(w);
      assert result + headers == headers;
      result := result + headers;
      result := result + "\n";
    }
    result := PushRows(result, mods, typ, w);
  }

  /** The branch of `gen_display` without a display type. */
  method NumberedDisplay(mods: seq<ModSteamInfo>, w: nat) returns (result: string)
    ensures result == NumberedHeaders(w) + NumberedRows(mods, w)
  {
    result := "";
    var headers := ModSteamInfo.GenHeaders(w);
    assert result + headers == headers;
    result := result + headers;
    result := ReplaceAll(result, "       Steam ID", "             Steam ID");
    result := ReplaceAll(result, "\n", "\n      ");
    result := result + "\n";
    assert result == NumberedHeaders(w);
    result := PushNumberedRows(result, mods, w);
  }

  /** The loop of `gen_display` with a display type: each record's display in
      that form is appended to `result`. */
  method PushRows(result: string, mods: seq<ModSteamInfo>, typ: DisplayType, w: nat) returns (out: string)
    ensures out == result + Rows(mods, typ, w)
  {
    out := result;
    RowsNone(result, mods, typ, w);
    var i := 0;
    while i < |mods|
      invariant 0 <= i <= |mods|
      invariant out == result + Rows(mods[..i], typ, w)
    {
      var row := mods[i].GenDisplay(typ, w);
      PushRowStep(result, out, mods, i, typ, w);
      out := out + row;
      i := i + 1;
    }
    RowsAll(mods, typ, w);
  }

  /** The loop of `gen_display` without a display type: each record's short
      display is appended behind its index. */
  method PushNumberedRows(result: string, mods: seq<ModSteamInfo>, w: nat) returns (out: string)
    ensures out == result + NumberedRows(mods, w)
  {
    out := result;
    NumberedRowsNone(result, mods, w);
    var i := 0;
    while i < |mods|
      invariant 0 <= i <= |mods|
      invariant out == result + NumberedRows(mods[..i], w)
    {
      var row := " " + PadRight(Decimal(i), 4) + " " + mods[i].GenDisplay(Short, w);
      PushNumberedRowStep(result, out, mods, i, w);
      out := out + row;
      i := i + 1;
    }
    NumberedRowsAll(mods, w);
  }

  /** Every record's display in one form, in order. */
  function Rows(mods: seq<ModSteamInfo>, form: DisplayType, w: nat): string {
    if mods == [] then ""
    else Rows(mods[..|mods| - 1], form, w) + mods[|mods| - 1].GenDisplay(form, w)
  }

  /** The headers of the numbered table. */
  function NumberedHeaders(w: nat): string {
    ReplaceAll(ReplaceAll(ModSteamInfo.GenHeaders(w), "       Steam ID", "             Steam ID"), "\n", "\n      ") + "\n"
  }

  /** The short display of `m` behind index `k`. */
  function NumberedRow(m: ModSteamInfo, k: nat, w: nat): string {
    " " + PadRight(Decimal(k), 4) + " " + m.GenDisplay(Short, w)
  }

  /** Every record's short display behind its 0-based index. */
  function NumberedRows(mods: seq<ModSteamInfo>, w: nat): string {
    if mods == [] then ""
    else
      var k := |mods| - 1;
      NumberedRows(mods[..k], w) + NumberedRow(mods[k], k, w)
  }

  /** One more record adds its numbered row. */
  lemma NumberedRowsStep(mods: seq<ModSteamInfo>, i: nat, w: nat)
    requires i < |mods|
    ensures NumberedRows(mods[..i + 1], w) == NumberedRows(mods[..i], w) + NumberedRow(mods[i], i, w)
  {
    assert mods[..i + 1][..i] == mods[..i];
  }

  /** Before the first record nothing is appended. */
  lemma RowsNone(result: string, mods: seq<ModSteamInfo>, form: DisplayType, w: nat)
    ensures result + Rows(mods[..0], form, w) == result
  {
    assert mods[..0] == [];
    assert result + "" == result;
  }

  /** After the last record every row is appended. */
  lemma RowsAll(mods: seq<ModSteamInfo>, form: DisplayType, w: nat)
    ensures Rows(mods[..|mods|], form, w) == Rows(mods, form, w)
  {
    assert mods[..|mods|] == mods;
  }

  /** Before the first record no numbered row is appended. */
  lemma NumberedRowsNone(result: string, mods: seq<ModSteamInfo>, w: nat)
    ensures result + NumberedRows(mods[..0], w) == result
  {
    assert mods[..0] == [];
    assert result + "" == result;
  }

  /** After the last record every numbered row is appended. */
  lemma NumberedRowsAll(mods: seq<ModSteamInfo>, w: nat)
    ensures NumberedRows(mods[..|mods|], w) == NumberedRows(mods, w)
  {
    assert mods[..|mods|] == mods;
  }

  /** Appending the next numbered row keeps the loop's invariant. */
  lemma PushNumberedRowStep(result: string, out: string, mods: seq<ModSteamInfo>, i: nat, w: nat)
    requires i < |mods| && out == result + NumberedRows(mods[..i], w)
    ensures out + NumberedRow(mods[i], i, w) == result + NumberedRows(mods[..i + 1], w)
  {
    NumberedRowsStep(mods, i, w);
    AppendAssoc(result, NumberedRows(mods[..i], w), NumberedRow(mods[i], i, w));
  }

  /** Appending the next row keeps the loop's invariant. */
  lemma PushRowStep(result: string, out: string, mods: seq<ModSteamInfo>, i: nat, form: DisplayType, w: nat)
    requires i < |mods| && out == result + Rows(mods[..i], form, w)
    ensures out + mods[i].GenDisplay(form, w) == result + Rows(mods[..i + 1], form, w)
  {
    RowsStep(mods, i, form, w);
    AppendAssoc(result, Rows(mods[..i], form, w), mods[i].GenDisplay(form, w));
  }

  /** One more record adds its row. */
  lemma RowsStep(mods: seq<ModSteamInfo>, i: nat, form: DisplayType, w: nat)
    requires i < |mods|
    ensures Rows(mods[..i + 1], form, w) == Rows(mods[..i], form, w) + mods[i].GenDisplay(form, w)
  {
    assert mods[..i + 1][..i] == mods[..i];
  }

  /** The loop of `look_for_mod` that gives the i-th record the i-th author
      name of the page and tracks the largest title length among those
      records; an author past the last record is an out-of-bounds index. */
  method MergeAuthors(records: seq<ModSteamInfo>, authors: seq<string>) returns (r: Wrappers.Outcome<(seq<ModSteamInfo>, nat)>)
    ensures r.Panicked? <==> |authors| > |records|
    ensures r.Normal? ==> |r.value.0| == |records|
    ensures r.Normal? ==> forall k :: 0 <= k < |authors| ==> r.value.0[k] == records[k].(author := authors[k])
    ensures r.Normal? ==> forall k :: |authors| <= k < |records| ==> r.value.0[k] == records[k]
    ensures r.Normal? ==> r.value.1 == MaxTitleBytes(records[..|authors|])
  {
    var ms := records;
    var size := 0;
    var i := 0;
    while i < |authors|
      invariant 0 <= i <= |authors| && i <= |records|
      invariant |ms| == |records|
      invariant forall k :: 0 <= k < i ==> ms[k] == records[k].(author := authors[k])
      invariant forall k :: i <= k < |records| ==> ms[k] == records[k]
      invariant size == MaxTitleBytes(records[..i])
    {
      if i >= |ms| {
        return Wrappers.Panicked;
      }
      MaxTitleBytesPrefix(records, i);
      ms := ms[i := ms[i].(author := authors[i])];
      if ByteLen(ms[i].title) > size {
        size := ByteLen(ms[i].title);
      }
      i := i + 1;
    }
    return Wrappers.Normal((ms, size));
  }

  /** `a` occurs in `b` in order, possibly with gaps. */
  predicate IsSubsequence<T(==)>(a: seq<T>, b: seq<T>)
    decreases |b|
  {
    a == [] ||
    (b != [] &&
     ((a[|a| - 1] == b[|b| - 1] && IsSubsequence(a[..|a| - 1], b[..|b| - 1]))
      || IsSubsequence(a, b[..|b| - 1])))
  }

  /** A record is kept exactly when it is in the input and selected. */
  lemma {:induction false} FilteredMembers(mods: seq<ModSteamInfo>, fs: FlagSet, q: string, matches: (string, string) -> bool)
    ensures forall m :: m in Filtered(mods, fs, q, matches) <==> m in mods && Selected(m, fs, q, matches)
  {
    if mods != [] {
      var init := mods[..|mods| - 1];
      FilteredMembers(init, fs, q, matches);
      assert mods == init + [mods[|mods| - 1]];
    }
  }

  /** The kept records keep their relative order. */
  lemma {:induction false} FilteredIsSubsequence(mods: seq<ModSteamInfo>, fs: FlagSet, q: string, matches: (string, string) -> bool)
    ensures IsSubsequence(Filtered(mods, fs, q, matches), mods)
  {
    if mods != [] {
      var init := mods[..|mods| - 1];
      var last := mods[|mods| - 1];
      var prev := Filtered(init, fs, q, matches);
      FilteredIsSubsequence(init, fs, q, matches);
      if Selected(last, fs, q, matches) {
        assert (prev + [last])[..|prev|] == prev;
      } else {
        assert prev + [] == prev;
      }
    }
  }

  /** Filtering a concatenation filters each part. */
  lemma {:induction false} FilteredAppend(a: seq<ModSteamInfo>, b: seq<ModSteamInfo>, fs: FlagSet, q: string, matches: (string, string) -> bool)
    ensures Filtered(a + b, fs, q, matches) == Filtered(a, fs, q, matches) + Filtered(b, fs, q, matches)
    decreases |b|
  {
    if b == [] {
      assert a + b == a;
    } else {
      var init := b[..|b| - 1];
      var last := b[|b| - 1];
      assert (a + b)[..|a + b| - 1] == a + init;
      FilteredAppend(a, init, fs, q, matches);
      var tail := if Selected(last, fs, q, matches) then [last] else [];
      AppendAssoc(Filtered(a, fs, q, matches), Filtered(init, fs, q, matches), tail);
    }
  }

  /** Filtering the result again with the same fields and query changes nothing. */
  lemma {:induction false} FilteredIdempotent(mods: seq<ModSteamInfo>, fs: FlagSet, q: string, matches: (string, string) -> bool)
    ensures Filtered(Filtered(mods, fs, q, matches), fs, q, matches) == Filtered(mods, fs, q, matches)
  {
    if mods != [] {
      var init := mods[..|mods| - 1];
      var last := mods[|mods| - 1];
      FilteredIdempotent(init, fs, q, matches);
      var tail := if Selected(last, fs, q, matches) then [last] else [];
      FilteredAppend(Filtered(init, fs, q, matches), tail, fs, q, matches);
      assert Filtered(tail, fs, q, matches) == tail by {
        if tail != [] {
          assert tail[..0] == [];
        }
      }
    }
  }

  /** A flag set that names none of the four fields (only `None`, or
      nothing) keeps no record. */
  lemma {:induction false} NoFieldKeepsNothing(mods: seq<ModSteamInfo>, fs: FlagSet, q: string, matches: (string, string) -> bool)
    requires SteamID !in fs && Title !in fs && Description !in fs && Author !in fs
    ensures Filtered(mods, fs, q, matches) == []
  {
    if mods != [] {
      NoFieldKeepsNothing(mods[..|mods| - 1], fs, q, matches);
    }
  }

  /** A line of three texts padded to the table's columns, as the rows and
      the header lines are laid out. */
  function TableLine(a: string, b: string, c: string, w: nat): string {
    PadLeft(a, 15) + "   " + PadRight(b, w) + "   " + PadRight(c, 20)
  }

  /** Padding adds only spaces, so a table line holds a character other than
      a space only when one of its texts does. */
  lemma TableLineChars(a: string, b: string, c: string, w: nat, x: char)
    ensures x != ' ' && x !in a && x !in b && x !in c ==> x !in TableLine(a, b, c, w)
  {
    if x != ' ' && x !in a && x !in b && x !in c {
      PadChars(a, 15, x);
      PadChars(b, w, x);
      PadChars(c, 20, x);
      NotInLine(PadLeft(a, 15), PadRight(b, w), PadRight(c, 20), x);
    }
  }

  /** The gaps of a table line are spaces only. */
  lemma NotInLine(pa: string, pb: string, pc: string, x: char)
    requires x != ' ' && x !in pa && x !in pb && x !in pc
    ensures x !in pa + "   " + pb + "   " + pc
  {
    assert x !in "   ";
  }

  /** The five pieces of a table line, at their offsets. */
  lemma LinePieces(pa: string, pb: string, pc: string)
    ensures var line := pa + "   " + pb + "   " + pc;
      && |line| == |pa| + |pb| + |pc| + 6
      && line[..|pa|] == pa
      && line[|pa|..|pa| + 3] == "   "
      && line[|pa| + 3..|pa| + 3 + |pb|] == pb
      && line[|pa| + 3 + |pb|..|pa| + 6 + |pb|] == "   "
      && line[|pa| + 6 + |pb|..] == pc
  {
  }

  /** The first text ends at column 15, with spaces before it. */
  lemma IdColumn(a: string, b: string, c: string, w: nat)
    requires |a| <= 15
    ensures var line := TableLine(a, b, c, w);
      && |line| >= 15
      && line[15 - |a|..15] == a
      && (forall k :: 0 <= k < 15 - |a| ==> line[k] == ' ')
  {
    var pa := PadLeft(a, 15);
    LinePieces(pa, PadRight(b, w), PadRight(c, 20));
    var line := TableLine(a, b, c, w);
    assert line[..15] == pa;
    assert line[15 - |a|..15] == pa[15 - |a|..];
  }

  /** A space-padded middle piece and the gap after it are spaces from
      offset `n` of that piece on. */
  lemma MiddleSpaces(pa: string, pb: string, pc: string, n: nat)
    requires n <= |pb| && forall k :: n <= k < |pb| ==> pb[k] == ' '
    ensures var line := pa + "   " + pb + "   " + pc;
      forall k :: |pa| + 3 + n <= k < |pa| + 6 + |pb| ==> line[k] == ' '
  {
    var line := pa + "   " + pb + "   " + pc;
    forall k | |pa| + 3 + n <= k < |pa| + 6 + |pb| ensures line[k] == ' ' {
      if k < |pa| + 3 + |pb| {
        assert line[k] == pb[k - |pa| - 3];
      }
    }
  }

  /** A space-padded last piece is spaces from offset `n` of it on. */
  lemma LastSpaces(pa: string, pb: string, pc: string, n: nat)
    requires n <= |pc| && forall k :: n <= k < |pc| ==> pc[k] == ' '
    ensures var line := pa + "   " + pb + "   " + pc;
      forall k :: |pa| + 6 + |pb| + n <= k < |line| ==> line[k] == ' '
  {
    var line := pa + "   " + pb + "   " + pc;
    forall k | |pa| + 6 + |pb| + n <= k < |line| ensures line[k] == ' ' {
      assert line[k] == pc[k - |pa| - 6 - |pb|];
    }
  }

  /** A middle text padded with spaces: the text after the first gap, then
      spaces up to the end of the second gap. */
  lemma MiddleField(pa: string, b: string, sp: string, pc: string, o: nat, e: nat)
    requires o == |pa| && e == |pa| + 6 + |b| + |sp|
    requires forall k :: 0 <= k < |sp| ==> sp[k] == ' '
    ensures var line := pa + "   " + (b + sp) + "   " + pc;
      && |line| >= e
      && line[o..o + 3] == "   "
      && line[o + 3..o + 3 + |b|] == b
      && (forall k :: o + 3 + |b| <= k < e ==> line[k] == ' ')
  {
    var pb := b + sp;
    var line := pa + "   " + pb + "   " + pc;
    LinePieces(pa, pb, pc);
    MiddleSpaces(pa, pb, pc, |b|);
    assert line[o + 3..o + 3 + |b|] == line[o + 3..o + 3 + |pb|][..|b|];
  }

  /** A last text padded with spaces: the text after the second gap, then
      spaces to the end of the line. */
  lemma LastField(pa: string, pb: string, c: string, sp: string, o: nat)
    requires o == |pa| + 6 + |pb|
    requires forall k :: 0 <= k < |sp| ==> sp[k] == ' '
    ensures var line := pa + "   " + pb + "   " + (c + sp);
      && |line| == o + |c| + |sp|
      && line[o..o + |c|] == c
      && (forall k :: o + |c| <= k < |line| ==> line[k] == ' ')
  {
    var pc := c + sp;
    var line := pa + "   " + pb + "   " + pc;
    LinePieces(pa, pb, pc);
    LastSpaces(pa, pb, pc, |c|);
    assert line[o..o + |c|] == line[o..][..|c|];
  }

  /** The second text starts at column 18, after three spaces, and spaces
      fill the rest of its column and the next gap. */
  lemma TitleColumn(a: string, b: string, c: string, w: nat)
    requires |a| <= 15 && |b| <= w
    ensures var line := TableLine(a, b, c, w);
      && |line| >= 21 + w
      && line[15..18] == "   "
      && line[18..18 + |b|] == b
      && (forall k :: 18 + |b| <= k < 21 + w ==> line[k] == ' ')
  {
    var pa := PadLeft(a, 15);
    var sp := Spaces(w - |b|);
    MiddleField(pa, b, sp, PadRight(c, 20), 15, 21 + w);
    assert TableLine(a, b, c, w) == pa + "   " + (b + sp) + "   " + PadRight(c, 20);
  }

  /** The third text starts at column 21 + `w`, and spaces pad it to 20
      columns. */
  lemma AuthorColumn(a: string, b: string, c: string, w: nat)
    requires |a| <= 15 && |b| <= w
    ensures var line := TableLine(a, b, c, w);
      && |line| >= 21 + w + |c|
      && line[21 + w..21 + w + |c|] == c
      && (forall k :: 21 + w + |c| <= k < |line| ==> line[k] == ' ')
  {
    var pa := PadLeft(a, 15);
    var pb := PadRight(b, w);
    var sp := Spaces(|PadRight(c, 20)| - |c|);
    LastField(pa, pb, c, sp, 21 + w);
    assert TableLine(a, b, c, w) == pa + "   " + pb + "   " + (c + sp);
  }

  /** A table line is as wide as its three padded columns and two gaps. */
  lemma LineWidth(a: string, b: string, c: string, w: nat)
    requires |a| <= 15 && |b| <= w
    ensures |TableLine(a, b, c, w)| == 21 + w + (if |c| < 20 then 20 else |c|)
  {
  }

  /** The layout shared by the table rows and the header lines: the first
      text right-aligned in 15 columns, the second from column 18 in a column
      of width `w`, the third from column 21 + `w`, and spaces everywhere
      else. */
  lemma TableColumns(a: string, b: string, c: string, w: nat)
    requires |a| <= 15 && |b| <= w
    ensures var line := TableLine(a, b, c, w);
      && |line| == 21 + w + (if |c| < 20 then 20 else |c|)
      && (forall k :: 0 <= k < 15 - |a| ==> line[k] == ' ')
      && line[15 - |a|..15] == a
      && line[15..18] == "   "
      && line[18..18 + |b|] == b
      && (forall k :: 18 + |b| <= k < 21 + w ==> line[k] == ' ')
      && line[21 + w..21 + w + |c|] == c
      && (forall k :: 21 + w + |c| <= k < |line| ==> line[k] == ' ')
  {
    LineWidth(a, b, c, w);
    IdColumn(a, b, c, w);
    TitleColumn(a, b, c, w);
    AuthorColumn(a, b, c, w);
  }

  /** A table row puts the id right-aligned in the first 15 columns, the
      title at column 18 and the author at column 21 + the title width, with
      spaces in every other column, when the id has at most 15 digits and the
      title fits its column. */
  lemma ShortColumns(m: ModSteamInfo, w: nat)
    requires |Decimal(m.id)| <= 15 && |m.title| <= w
    ensures var line := m.GenShort(w);
      && |line| == 21 + w + (if |m.author| < 20 then 20 else |m.author|)
      && (forall k :: 0 <= k < 15 - |Decimal(m.id)| ==> line[k] == ' ')
      && line[15 - |Decimal(m.id)|..15] == Decimal(m.id)
      && line[15..18] == "   "
      && line[18..18 + |m.title|] == m.title
      && (forall k :: 18 + |m.title| <= k < 21 + w ==> line[k] == ' ')
      && line[21 + w..21 + w + |m.author|] == m.author
      && (forall k :: 21 + w + |m.author| <= k < |line| ==> line[k] == ' ')
  {
    TableColumns(Decimal(m.id), m.title, m.author, w);
  }

  /** The header names sit where the row fields sit: "Steam ID" ends at
      column 15, "Name" starts at 18, "Uploader" at 21 + the title width, and
      the second header line, after the newline, repeats the layout with
      dashes. */
  lemma HeaderColumns(w: nat)
    requires w >= 8
    ensures var t := HeaderTitles(w);
      |t| == 41 + w && t[7..15] == "Steam ID" && t[18..22] == "Name" && t[21 + w..29 + w] == "Uploader"
    ensures var r := HeaderRule(w);
      |r| == 41 + w && r[7..15] == "--------" && r[18..26] == "--------" && r[21 + w..29 + w] == "--------"
  {
    TableColumns("Steam ID", "Name", "Uploader", w);
    TableColumns("--------", "--------", "--------", w);
    assert HeaderTitles(w) == TableLine("Steam ID", "Name", "Uploader", w);
    assert HeaderRule(w) == TableLine("--------", "--------", "--------", w);
  }

  /** The first line of the table headers. */
  function HeaderTitles(w: nat): string {
    PadLeft("Steam ID", 15) + "   " + PadRight("Name", w) + "   " + PadRight("Uploader", 20)
  }

  /** The second line of the table headers. */
  function HeaderRule(w: nat): string {
    PadLeft("--------", 15) + "   " + PadRight("--------", w) + "   " + PadRight("--------", 20)
  }

  /** The header text after the id header holds no 'S'. */
  lemma HeaderRestHasNoS(w: nat)
    ensures 'S' !in "   " + PadRight("Name", w) + "   " + PadRight("Uploader", 20) + "\n" + HeaderRule(w)
  {
    PadChars("Name", w, 'S');
    PadChars("Uploader", 20, 'S');
    PadChars("--------", 15, 'S');
    PadChars("--------", w, 'S');
    PadChars("--------", 20, 'S');
    var titles := "   " + PadRight("Name", w) + "   " + PadRight("Uploader", 20);
    assert 'S' !in titles;
    assert 'S' !in HeaderRule(w);
    assert 'S' !in titles + "\n";
  }

  /** The titles line holds no newline. */
  lemma TitlesHaveNoNewline(w: nat)
    ensures '\n' !in "      " + HeaderTitles(w)
  {
    PadChars("Steam ID", 15, '\n');
    PadChars("Name", w, '\n');
    PadChars("Uploader", 20, '\n');
  }

  /** The rule line holds no newline. */
  lemma RuleHasNoNewline(w: nat)
    ensures '\n' !in HeaderRule(w)
  {
    PadChars("--------", 15, '\n');
    PadChars("--------", w, '\n');
    PadChars("--------", 20, '\n');
  }

  /** The id header and its form moved six columns right. */
  lemma SteamIdHeader()
    ensures PadLeft("Steam ID", 15) == "       Steam ID"
    ensures "             Steam ID" == "      " + "       Steam ID"
  {
  }

  /** The first replacement of the numbered form widens the id header. */
  lemma ShiftIdHeader(w: nat)
    ensures ReplaceAll(ModSteamInfo.GenHeaders(w), "       Steam ID", "             Steam ID")
      == "      " + HeaderTitles(w) + "\n" + HeaderRule(w)
  {
    var p := "       Steam ID";
    var shifted := "             Steam ID";
    var name := PadRight("Name", w);
    var uploader := PadRight("Uploader", 20);
    var rest := "   " + name + "   " + uploader;
    var l2 := HeaderRule(w);
    SteamIdHeader();
    Regroup5(p, "   ", name, "   ", uploader);
    Regroup4(p, rest, "\n", l2);
    HeaderRestHasNoS(w);
    ReplaceOnlyAtFront(p, rest + "\n" + l2, shifted, 'S');
    Regroup4(shifted, rest, "\n", l2);
    AppendAssoc("      ", p, rest);
  }

  /** The two replacements of the numbered form move both header lines six
      columns right, the width of a row's index prefix (a space, the index left-aligned in 4 columns and a space). */
  lemma NumberedHeadersLayout(w: nat)
    ensures NumberedHeaders(w) == "      " + HeaderTitles(w) + "\n      " + HeaderRule(w) + "\n"
  {
    ShiftIdHeader(w);
    TitlesHaveNoNewline(w);
    RuleHasNoNewline(w);
    var a := "      " + HeaderTitles(w);
    ReplaceSingle(a, '\n', HeaderRule(w), "\n      ");
  }
}
