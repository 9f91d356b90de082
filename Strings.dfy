/** The parts of Rust's `str` API that the modelled code uses, on `seq<char>`:
    `contains`, `split`, `split_once`, `join`, `replace`, `replacen`, format
    padding, `usize` printing and parsing, and UTF-8 byte length (`len`). */
module Strings {
  import opened Wrappers

  /** Values of Rust's `usize` on a 64-bit target. */
  type Usize = n: nat | n < 0x1_0000_0000_0000_0000

  predicate IsPrefix(p: string, s: string) {
    |p| <= |s| && s[..|p|] == p
  }

  /** `s.contains(sub)`: `sub` occurs at some position of `s`. */
  predicate Contains(s: string, sub: string) {
    exists i :: 0 <= i <= |s| - |sub| && IsPrefix(sub, s[i..])
  }

  /** Concatenation is associative (stated once so that long concatenations
      are not compared element by element). */
  lemma AppendAssoc<T>(a: seq<T>, b: seq<T>, c: seq<T>)
    ensures (a + b) + c == a + (b + c)
  {
  }

  /** Regrouping a concatenation of five. */
  lemma Regroup5<T>(a: seq<T>, b: seq<T>, c: seq<T>, d: seq<T>, e: seq<T>)
    ensures a + b + c + d + e == a + (b + c + d + e)
  {
  }

  /** Regrouping a concatenation of four. */
  lemma Regroup4<T>(a: seq<T>, b: seq<T>, c: seq<T>, d: seq<T>)
    ensures a + b + c + d == a + (b + c + d)
  {
  }

  /** `s.split(c)`: the maximal pieces between occurrences of `c`; always at
      least one piece, and `""` splits to `[""]`. */
  function Split(s: string, c: char): (parts: seq<string>)
    ensures |parts| >= 1
    ensures forall k :: 0 <= k < |parts| ==> c !in parts[k]
    decreases |s|
  {
    if s == [] then [""]
    else if s[0] == c then [""] + Split(s[1..], c)
    else
      var rest := Split(s[1..], c);
      [[s[0]] + rest[0]] + rest[1..]
  }

  /** `parts.join(sep)`. */
  function Join(parts: seq<string>, sep: string): string
    decreases |parts|
  {
    if parts == [] then ""
    else if |parts| == 1 then parts[0]
    else parts[0] + sep + Join(parts[1..], sep)
  }

  /** A string without the separator is one piece. */
  lemma {:induction false} SplitWithoutSeparator(s: string, c: char)
    requires c !in s
    ensures Split(s, c) == [s]
    decreases |s|
  {
    if s != [] {
      SplitWithoutSeparator(s[1..], c);
      assert [s[0]] + s[1..] == s;
    }
  }

  /** Splitting at one separator splits the two sides independently. */
  lemma {:induction false} SplitAround(a: string, c: char, b: string)
    ensures Split(a + [c] + b, c) == Split(a, c) + Split(b, c)
    decreases |a|
  {
    if a == [] {
      assert a + [c] + b == [c] + b;
      assert ([c] + b)[1..] == b;
    } else {
      assert (a + [c] + b)[1..] == a[1..] + [c] + b;
      SplitAround(a[1..], c, b);
    }
  }

  /** Joining the pieces of a split gives the string back. */
  lemma {:induction false} JoinSplit(s: string, c: char)
    ensures Join(Split(s, c), [c]) == s
    decreases |s|
  {
    if s != [] {
      JoinSplit(s[1..], c);
      var rest := Split(s[1..], c);
      if s[0] == c {
        assert Split(s, c) == [""] + rest;
        assert ([""] + rest)[1..] == rest;
      } else {
        var parts := [[s[0]] + rest[0]] + rest[1..];
        assert Split(s, c) == parts;
        if |rest| == 1 {
          assert Join(parts, [c]) == [s[0]] + rest[0];
        } else {
          assert parts[1..] == rest[1..];
          assert Join(rest, [c]) == rest[0] + [c] + Join(rest[1..], [c]);
        }
        assert [s[0]] + s[1..] == s;
      }
    }
  }

  /** Splitting a join of separator-free, non-empty-list pieces gives the pieces back. */
  lemma {:induction false} SplitJoin(parts: seq<string>, c: char)
    requires parts != []
    requires forall k :: 0 <= k < |parts| ==> c !in parts[k]
    ensures Split(Join(parts, [c]), c) == parts
    decreases |parts|
  {
    SplitWithoutSeparator(parts[0], c);
    if |parts| > 1 {
      SplitJoin(parts[1..], c);
      SplitAround(parts[0], c, Join(parts[1..], [c]));
      assert parts == [parts[0]] + parts[1..];
    }
  }

  /** A separator-free line followed by the separator is the first piece. */
  lemma SplitLine(a: string, x: char, t: string)
    requires x !in a
    ensures Split(a + [x] + t, x) == [a] + Split(t, x)
  {
    SplitAround(a, x, t);
    SplitWithoutSeparator(a, x);
  }

  /** The same, with the rest grouped to the right. */
  lemma SplitLineRight(a: string, x: char, t: string)
    requires x !in a
    ensures Split(a + ([x] + t), x) == [a] + Split(t, x)
  {
    AppendAssoc(a, [x], t);
    SplitLine(a, x, t);
  }

  /** A separator-free line ended by the separator is that line and an empty
      last piece. */
  lemma SplitLast(d: string, x: char)
    requires x !in d
    ensures Split(d + [x], x) == [d, ""]
  {
    assert d + [x] == d + [x] + [];
    SplitLine(d, x, []);
    assert Split([], x) == [""];
  }

  /** Four separator-free lines, each ended by the separator, split back
      into the four lines and an empty last piece. */
  lemma SplitLines4(a: string, b: string, c: string, d: string, x: char)
    ensures x !in a && x !in b && x !in c && x !in d ==>
      Split(a + ([x] + (b + ([x] + (c + ([x] + (d + [x])))))), x) == [a, b, c, d, ""]
  {
    if x in a || x in b || x in c || x in d {
      return;
    }
    SplitLast(d, x);
    SplitLineRight(c, x, d + [x]);
    SplitLineRight(b, x, c + ([x] + (d + [x])));
    SplitLineRight(a, x, b + ([x] + (c + ([x] + (d + [x])))));
  }

  /** `s.find(c)`: the first index of `c`. */
  function IndexOf(s: string, c: char): (r: Option<nat>)
    ensures r.None? <==> c !in s
    ensures r.Some? ==> r.value < |s| && s[r.value] == c && c !in s[..r.value]
    decreases |s|
  {
    if s == [] then None
    else if s[0] == c then Some(0)
    else match IndexOf(s[1..], c)
      case None => None
      case Some(i) =>
        assert s[..i + 1] == [s[0]] + s[1..][..i];
        Some(i + 1)
  }

  /** The first `x` of `a + [x] + u` is the one after `a`, when `a` has none. */
  lemma FirstOccurrence(a: string, x: char, u: string)
    requires x !in a
    ensures IndexOf(a + [x] + u, x) == Some(|a|)
  {
    var s := a + [x] + u;
    assert s[..|a|] == a;
    assert s[|a|] == x;
  }

  /** `s.replace(pat, rep)`: every leftmost non-overlapping occurrence is
      replaced, scanning left to right; an empty pattern matches before every
      character and at the end. */
  function ReplaceAll(s: string, pat: string, rep: string): string
    decreases |s|
  {
    if pat == [] then
      if s == [] then rep else rep + [s[0]] + ReplaceAll(s[1..], pat, rep)
    else if IsPrefix(pat, s) then rep + ReplaceAll(s[|pat|..], pat, rep)
    else if s == [] then []
    else [s[0]] + ReplaceAll(s[1..], pat, rep)
  }

  /** `s.replacen(pat, rep, 1)`: only the first occurrence is replaced. */
  function ReplaceFirst(s: string, pat: string, rep: string): string
    decreases |s|
  {
    if IsPrefix(pat, s) then rep + s[|pat|..]
    else if s == [] then []
    else [s[0]] + ReplaceFirst(s[1..], pat, rep)
  }

  /** A string that lacks some character of the pattern is left unchanged. */
  lemma {:induction false} ReplaceAbsent(s: string, pat: string, rep: string, x: char)
    requires x in pat && x !in s
    ensures ReplaceAll(s, pat, rep) == s
    decreases |s|
  {
    if s != [] {
      ReplaceAbsent(s[1..], pat, rep, x);
      assert [s[0]] + s[1..] == s;
    }
  }

  /** A prefix without the pattern's first character is copied through. */
  lemma {:induction false} ReplaceSkip(a: string, b: string, pat: string, rep: string)
    requires pat != [] && pat[0] !in a
    ensures ReplaceAll(a + b, pat, rep) == a + ReplaceAll(b, pat, rep)
    decreases |a|
  {
    if a != [] {
      assert (a + b)[0] == a[0];
      assert (a + b)[1..] == a[1..] + b;
      ReplaceSkip(a[1..], b, pat, rep);
      assert [a[0]] + a[1..] == a;
    } else {
      assert a + b == b;
    }
  }

  /** An occurrence at the front is replaced and scanning resumes after it. */
  lemma ReplaceHit(pat: string, b: string, rep: string)
    requires pat != []
    ensures ReplaceAll(pat + b, pat, rep) == rep + ReplaceAll(b, pat, rep)
  {
    assert IsPrefix(pat, pat + b);
    assert (pat + b)[|pat|..] == b;
  }

  /** A pattern at the front of a string that lacks one of its characters
      is the only occurrence. */
  lemma ReplaceOnlyAtFront(pat: string, rest: string, rep: string, x: char)
    requires x in pat && x !in rest
    ensures ReplaceAll(pat + rest, pat, rep) == rep + rest
  {
    ReplaceHit(pat, rest, rep);
    ReplaceAbsent(rest, pat, rep, x);
  }

  /** Replacing a character that occurs once. */
  lemma ReplaceSingle(a: string, x: char, b: string, rep: string)
    requires x !in a && x !in b
    ensures ReplaceAll(a + [x] + b, [x], rep) == a + rep + b
  {
    ReplaceSkip(a, [x] + b, [x], rep);
    ReplaceOnlyAtFront([x], b, rep, x);
    AppendAssoc(a, [x], b);
    AppendAssoc(a, rep, b);
  }

  /** `n` spaces. */
  function Spaces(n: nat): (r: string)
    ensures |r| == n && forall k :: 0 <= k < n ==> r[k] == ' '
  {
    seq(n, _ => ' ')
  }

  /** Right-aligned format padding: `s` in at least `w` characters. */
  function PadLeft(s: string, w: nat): (r: string)
    ensures |r| == if |s| < w then w else |s|
    ensures r == Spaces(|r| - |s|) + s
  {
    if |s| < w then Spaces(w - |s|) + s else s
  }

  /** Left-aligned format padding: `s` in at least `w` characters. */
  function PadRight(s: string, w: nat): (r: string)
    ensures |r| == if |s| < w then w else |s|
    ensures r == s + Spaces(|r| - |s|)
  {
    if |s| < w then s + Spaces(w - |s|) else s
  }

  /** Padding adds only spaces. */
  lemma PadChars(s: string, w: nat, x: char)
    requires x != ' ' && x !in s
    ensures x !in PadLeft(s, w) && x !in PadRight(s, w)
  {
  }

  predicate IsDigit(c: char) {
    '0' <= c <= '9'
  }

  function DigitChar(d: nat): (c: char)
    requires d < 10
    ensures IsDigit(c)
  {
    ('0' as int + d) as char
  }

  /** The decimal text of `n`, as `n.to_string()` prints it. */
  function Decimal(n: nat): (s: string)
    ensures |s| >= 1
    ensures forall k :: 0 <= k < |s| ==> IsDigit(s[k])
  {
    if n < 10 then [DigitChar(n)] else Decimal(n / 10) + [DigitChar(n % 10)]
  }

  /** The value of a string of decimal digits. */
  predicate AllDigits(s: string) {
    forall k :: 0 <= k < |s| ==> IsDigit(s[k])
  }

  function DigitsValue(s: string): nat
    requires AllDigits(s)
  {
    if s == [] then 0
    else
      var d := s[|s| - 1];
      assert IsDigit(d);
      DigitsValue(s[..|s| - 1]) * 10 + (d as int - '0' as int)
  }

  /** `s.parse::<usize>()` on a 64-bit target: an optional leading `+`, then at
      least one decimal digit, and a value below 2^64. */
  function ParseUsize(s: string): (r: Option<Usize>)
    ensures r.Some? ==> s != [] && s[0] != '-'
  {
    var digits := if s != [] && s[0] == '+' then s[1..] else s;
    if digits == [] || !AllDigits(digits) then None
    else
      var v := DigitsValue(digits);
      if v < 0x1_0000_0000_0000_0000 then Some(v) else None
  }

  lemma {:induction false} DecimalValue(n: nat)
    ensures DigitsValue(Decimal(n)) == n
  {
    if n >= 10 {
      DecimalValue(n / 10);
      var s := Decimal(n);
      assert s[..|s| - 1] == Decimal(n / 10);
    }
  }

  /** Printing a `usize` and parsing it back gives the same number. */
  lemma ParseDecimal(n: Usize)
    ensures ParseUsize(Decimal(n)) == Some(n)
  {
    DecimalValue(n);
    assert Decimal(n)[0] != '+';
  }

  /** UTF-8 length of one character. */
  function Utf8Width(c: char): (w: nat)
    ensures 1 <= w <= 4
  {
    if c as int < 0x80 then 1
    else if c as int < 0x800 then 2
    else if c as int < 0x10000 then 3
    else 4
  }

  /** `s.len()` in Rust: the UTF-8 byte length. */
  function ByteLen(s: string): nat
  {
    if s == [] then 0 else ByteLen(s[..|s| - 1]) + Utf8Width(s[|s| - 1])
  }

  /** Format padding counts characters, and a string has at most as many
      characters as bytes. */
  lemma {:induction false} CharsAtMostBytes(s: string)
    ensures |s| <= ByteLen(s)
  {
    if s != [] {
      CharsAtMostBytes(s[..|s| - 1]);
    }
  }
}
