/**
  * String helpers shared by the dashboard's components: the subset of
  * JavaScript's String.prototype that the modelled code uses (toLowerCase,
  * toUpperCase, charAt(0)/slice(1), includes, trim, split, join) and the
  * decimal rendering of a template literal `${n}`. JavaScript strings are
  * sequences of UTF-16 code units; here they are `string`, a `seq<char>` of
  * Unicode scalar values, so a character outside the Basic Multilingual
  * Plane is one element here where JavaScript sees two (see README,
  * "Left out"). Case mapping is ASCII only.
  */
module Text {

  /** toLowerCase on one character (ASCII letters only). */
  function LowerChar(c: char): char {
    if 'A' <= c <= 'Z' then (c as int + 32) as char else c
  }

  /** toUpperCase on one character (ASCII letters only). */
  function UpperChar(c: char): char {
    if 'a' <= c <= 'z' then (c as int - 32) as char else c
  }

  /** `s.toLowerCase()` */
  function Lower(s: string): (r: string)
    ensures |r| == |s|
    ensures forall i :: 0 <= i < |s| ==> r[i] == LowerChar(s[i])
  {
    seq(|s|, i requires 0 <= i < |s| => LowerChar(s[i]))
  }

  /** `s.toUpperCase()` */
  function Upper(s: string): (r: string)
    ensures |r| == |s|
    ensures forall i :: 0 <= i < |s| ==> r[i] == UpperChar(s[i])
  {
    seq(|s|, i requires 0 <= i < |s| => UpperChar(s[i]))
  }

  /** Lower-casing twice is lower-casing once. */
  lemma LowerIdempotent(s: string)
    ensures Lower(Lower(s)) == Lower(s)
  {
    assert forall i :: 0 <= i < |s| ==> LowerChar(LowerChar(s[i])) == LowerChar(s[i]);
  }

  /**
    * `s.charAt(0).toUpperCase() + s.slice(1)`: the first character upper-cased,
    * the rest unchanged. The same expression labels a status badge and an
    * order action.
    */
  function Capitalize(s: string): (r: string)
    ensures |r| == |s|
    ensures |s| > 0 ==> r[0] == UpperChar(s[0]) && r[1..] == s[1..]
  {
    if |s| == 0 then s else [UpperChar(s[0])] + s[1..]
  }

  /** `hay.includes(needle)`: needle occurs somewhere in hay (the empty needle always does). */
  predicate Contains(hay: string, needle: string) {
    exists i :: 0 <= i <= |hay| - |needle| && OccursAt(hay, needle, i)
  }

  /** needle occurs in hay starting at index i. */
  predicate OccursAt(hay: string, needle: string, i: int)
    requires 0 <= i <= |hay| - |needle|
  {
    hay[i..i + |needle|] == needle
  }

  /** `includes`: the empty string occurs in every string, a string in itself, nothing longer in a shorter one. */
  lemma ContainsBasics(hay: string, needle: string)
    ensures Contains(hay, "") && Contains(hay, hay)
    ensures |needle| > |hay| ==> !Contains(hay, needle)
    ensures Contains(hay, needle) <==> exists i, j :: 0 <= i <= j <= |hay| && hay[i..j] == needle
  {
    assert OccursAt(hay, "", 0);
    assert OccursAt(hay, hay, 0);
    if Contains(hay, needle) {
      var i :| 0 <= i <= |hay| - |needle| && OccursAt(hay, needle, i);
      assert hay[i..i + |needle|] == needle;
    }
    if exists i, j :: 0 <= i <= j <= |hay| && hay[i..j] == needle {
      var i, j :| 0 <= i <= j <= |hay| && hay[i..j] == needle;
      assert OccursAt(hay, needle, i);
    }
  }

  /** The characters String.prototype.trim removes: WhiteSpace and LineTerminator of ECMA-262. */
  predicate IsWhitespace(c: char) {
    c == '\t' || c == '\n' || c == '\U{B}' || c == '\U{C}' || c == '\r' || c == ' ' ||
    c == '\U{A0}' || c == '\U{1680}' || ('\U{2000}' <= c <= '\U{200A}') ||
    c == '\U{2028}' || c == '\U{2029}' || c == '\U{202F}' || c == '\U{205F}' ||
    c == '\U{3000}' || c == '\U{FEFF}'
  }

  /** Every character is whitespace. */
  predicate IsBlank(s: string) {
    forall i :: 0 <= i < |s| ==> IsWhitespace(s[i])
  }

  /** `s.trimStart()`: s without its leading whitespace. */
  function TrimStart(s: string): (r: string)
    ensures |r| <= |s| && r == s[|s| - |r|..]
    ensures IsBlank(s[..|s| - |r|])
    ensures r == [] || !IsWhitespace(r[0])
  {
    if s == [] || !IsWhitespace(s[0]) then s else TrimStart(s[1..])
  }

  /** `s.trimEnd()`: s without its trailing whitespace. */
  function TrimEnd(s: string): (r: string)
    ensures |r| <= |s| && r == s[..|r|]
    ensures IsBlank(s[|r|..])
    ensures r == [] || !IsWhitespace(r[|r| - 1])
  {
    if s == [] || !IsWhitespace(s[|s| - 1]) then s else TrimEnd(s[..|s| - 1])
  }

  /** `s.trim()`: the part of s between its leading and its trailing whitespace. */
  function Trim(s: string): (r: string)
    ensures exists i :: TrimmedAt(s, r, i)
    ensures r == [] || (!IsWhitespace(r[0]) && !IsWhitespace(r[|r| - 1]))
  {
    var t := TrimStart(s);
    var r := TrimEnd(t);
    TrimSlices(s, t, r);
    r
  }

  /** r sits in s at index i with only whitespace before and after it. */
  predicate TrimmedAt(s: string, r: string, i: int) {
    0 <= i <= |s| - |r| && r == s[i..i + |r|] && IsBlank(s[..i]) && IsBlank(s[i + |r|..])
  }

  /** The slices of s that Trim's contract names, given the two trims' own contracts. */
  lemma TrimSlices(s: string, t: string, r: string)
    requires |t| <= |s| && t == s[|s| - |t|..] && IsBlank(s[..|s| - |t|])
    requires |r| <= |t| && r == t[..|r|] && IsBlank(t[|r|..])
    requires t == [] || !IsWhitespace(t[0])
    ensures TrimmedAt(s, r, |s| - |t|)
    ensures r == [] || !IsWhitespace(r[0])
  {
    var i := |s| - |t|;
    assert s[i + |r|..] == t[|r|..];
    assert r != [] ==> r[0] == t[0];
  }

  /** `s.trim() !== ""` holds exactly when s has a non-whitespace character. */
  lemma TrimEmptyIffBlank(s: string)
    ensures Trim(s) == [] <==> IsBlank(s)
  {
    TrimStartEmptyIffBlank(s);
    var t := TrimStart(s);
    if t != [] {
      TrimEndKeepsNonBlankStart(t);
    }
  }

  lemma {:induction false} TrimStartEmptyIffBlank(s: string)
    ensures TrimStart(s) == [] <==> IsBlank(s)
  {
    if s != [] && IsWhitespace(s[0]) {
      TrimStartEmptyIffBlank(s[1..]);
      assert IsBlank(s) <==> IsBlank(s[1..]) by {
        assert forall i :: 1 <= i < |s| ==> s[i] == s[1..][i - 1];
      }
    }
  }

  lemma {:induction false} TrimEndKeepsNonBlankStart(t: string)
    requires t != [] && !IsWhitespace(t[0])
    ensures TrimEnd(t) != []
  {
    if IsWhitespace(t[|t| - 1]) {
      TrimEndKeepsNonBlankStart(t[..|t| - 1]);
    }
  }

  /** Lower-casing touches no whitespace character, so it keeps a string blank or non-blank. */
  lemma LowerKeepsBlank(s: string)
    ensures IsBlank(Lower(s)) <==> IsBlank(s)
  {
  }

  /** `s.split(sep)` for a one-character separator; always at least one piece. */
  function Split(s: string, sep: char): (r: seq<string>)
    ensures |r| >= 1
  {
    if s == [] then [[]]
    else if s[0] == sep then [[]] + Split(s[1..], sep)
    else
      var rest := Split(s[1..], sep);
      [[s[0]] + rest[0]] + rest[1..]
  }

  /** No piece of a split contains the separator. */
  lemma {:induction false} SplitPiecesFree(s: string, sep: char)
    ensures forall k :: 0 <= k < |Split(s, sep)| ==> sep !in Split(s, sep)[k]
  {
    if s != [] {
      SplitPiecesFree(s[1..], sep);
    }
  }

  /** `ws.join(sep)`; the empty array joins to "". */
  function Join(ws: seq<string>, sep: string): string {
    if |ws| == 0 then []
    else if |ws| == 1 then ws[0]
    else ws[0] + sep + Join(ws[1..], sep)
  }

  /** Joining what was split gives back the string. */
  lemma {:induction false} JoinSplit(s: string, sep: char)
    ensures Join(Split(s, sep), [sep]) == s
  {
    if s == [] {
    } else if s[0] == sep {
      JoinSplit(s[1..], sep);
      assert s == [sep] + s[1..];
    } else {
      var rest := Split(s[1..], sep);
      JoinSplit(s[1..], sep);
      JoinConsFirst([s[0]], rest, [sep]);
      assert s == [s[0]] + s[1..];
    }
  }

  /** Prepending text to the first word prepends it to the joined string. */
  lemma {:induction false} JoinConsFirst(a: string, ws: seq<string>, sep: string)
    requires |ws| >= 1
    ensures Join([a + ws[0]] + ws[1..], sep) == a + Join(ws, sep)
  {
    var ws' := [a + ws[0]] + ws[1..];
    assert ws'[1..] == ws[1..];
  }

  /** One step of Split: the first character either ends the first piece or joins it. */
  lemma SplitCons(c: char, t: string, sep: char)
    ensures Split([c] + t, sep) ==
      if c == sep then [[]] + Split(t, sep) else [[c] + Split(t, sep)[0]] + Split(t, sep)[1..]
  {
    assert ([c] + t)[1..] == t;
  }

  /** A string split at a separator splits into the pieces of each side. */
  lemma {:induction false} SplitAppend(a: string, b: string, sep: char)
    ensures Split(a + [sep] + b, sep) == Split(a, sep) + Split(b, sep)
  {
    if a == [] {
      assert a + [sep] + b == [sep] + b;
      SplitCons(sep, b, sep);
    } else {
      var c, t := a[0], a[1..];
      assert a + [sep] + b == [c] + (t + [sep] + b);
      SplitAppend(t, b, sep);
      SplitAppendStep(c, t, b, sep);
    }
  }

  /** The inductive step of SplitAppend: one more character in front. */
  lemma SplitAppendStep(c: char, t: string, b: string, sep: char)
    requires Split(t + [sep] + b, sep) == Split(t, sep) + Split(b, sep)
    ensures Split([c] + (t + [sep] + b), sep) == Split([c] + t, sep) + Split(b, sep)
  {
    SplitCons(c, t + [sep] + b, sep);
    SplitCons(c, t, sep);
    ConsPieces(c, sep, Split(t, sep), Split(b, sep));
  }

  /** Putting c in front of the pieces of a concatenation is putting it in front of the first part's pieces. */
  lemma ConsPieces(c: char, sep: char, front: seq<string>, back: seq<string>)
    requires |front| >= 1
    ensures (if c == sep then [[]] + (front + back) else [[c] + (front + back)[0]] + (front + back)[1..]) ==
      (if c == sep then [[]] + front else [[c] + front[0]] + front[1..]) + back
  {
    if c != sep {
      GlueFirst([c], front, back);
    } else {
      assert [[]] + (front + back) == ([[]] + front) + back;
    }
  }

  /** Gluing text onto the first piece of a concatenation glues it onto the first part. */
  lemma GlueFirst(x: string, front: seq<string>, back: seq<string>)
    requires |front| >= 1
    ensures [x + (front + back)[0]] + (front + back)[1..] == ([x + front[0]] + front[1..]) + back
  {
    assert (front + back)[1..] == front[1..] + back;
  }

  /** A string without the separator is a single piece. */
  lemma {:induction false} SplitNoSeparator(w: string, sep: char)
    requires sep !in w
    ensures Split(w, sep) == [w]
  {
    if w != [] {
      SplitNoSeparator(w[1..], sep);
      assert w == [w[0]] + w[1..];
    }
  }

  /** `s.split(sep).pop()`: the text after the last separator. */
  function LastPiece(s: string, sep: char): string {
    var pieces := Split(s, sep);
    pieces[|pieces| - 1]
  }

  /** Only what follows the last separator is the last piece. */
  lemma LastPieceOfAppend(q: string, w: string, sep: char)
    requires sep !in w
    ensures LastPiece(q + [sep] + w, sep) == w
  {
    SplitAppend(q, w, sep);
    SplitNoSeparator(w, sep);
  }

  /** Capitalize every word. */
  function CapitalizeAll(ws: seq<string>): (r: seq<string>)
    ensures |r| == |ws|
    ensures forall k :: 0 <= k < |r| ==> r[k] == Capitalize(ws[k])
  {
    if ws == [] then [] else [Capitalize(ws[0])] + CapitalizeAll(ws[1..])
  }

  /**
    * `s.split("-").map(capitalize).join(" ")`, the conversion shared by
    * formatPathToTitle and PageTitle.
    */
  function HyphenWordsToTitle(s: string): string {
    Join(CapitalizeAll(Split(s, '-')), " ")
  }

  /**
    * Character-by-character reference for HyphenWordsToTitle: every '-'
    * becomes ' ', the first character of every word is upper-cased and all
    * other characters are kept. `atWordStart` says whether s[0] starts a word.
    */
  function TitleChars(s: string, atWordStart: bool): (r: string)
    ensures |r| == |s|
    ensures forall i :: 0 <= i < |s| ==> r[i] == TitleCharAt(s, i, atWordStart)
  {
    if s == [] then []
    else
      var rest := TitleChars(s[1..], s[0] == '-');
      assert forall i :: 1 <= i < |s| ==> TitleCharAt(s[1..], i - 1, s[0] == '-') == TitleCharAt(s, i, atWordStart);
      [TitleCharAt(s, 0, atWordStart)] + rest
  }

  /** What TitleChars puts at position i. */
  function TitleCharAt(s: string, i: nat, atWordStart: bool): char
    requires i < |s|
  {
    if s[i] == '-' then ' '
    else if (if i == 0 then atWordStart else s[i - 1] == '-') then UpperChar(s[i])
    else s[i]
  }

  /** The split/map/join pipeline computes the character-wise reference. */
  lemma HyphenWordsToTitleChars(s: string)
    ensures HyphenWordsToTitle(s) == TitleChars(s, true)
  {
    TitleCharsPieces(s);
  }

  lemma {:induction false} TitleCharsPieces(s: string)
    ensures Join(CapitalizeAll(Split(s, '-')), " ") == TitleChars(s, true)
    ensures var ws := Split(s, '-'); Join([ws[0]] + CapitalizeAll(ws[1..]), " ") == TitleChars(s, false)
  {
    if s == [] {
    } else if s[0] == '-' {
      TitleCharsPieces(s[1..]);
      var ws := Split(s, '-');
      assert ws == [[]] + Split(s[1..], '-');
      assert ws[1..] == Split(s[1..], '-');
      assert CapitalizeAll(ws) == [[]] + CapitalizeAll(Split(s[1..], '-'));
    } else {
      TitleCharsPieces(s[1..]);
      var rest := Split(s[1..], '-');
      var ws := Split(s, '-');
      assert ws == [[s[0]] + rest[0]] + rest[1..];
      assert ws[0] == [s[0]] + rest[0];
      assert ws[1..] == rest[1..];
      var caps := CapitalizeAll(rest[1..]);
      assert CapitalizeAll(ws) == [Capitalize([s[0]] + rest[0])] + caps;
      assert Capitalize([s[0]] + rest[0]) == [UpperChar(s[0])] + rest[0];
      JoinConsFirst([UpperChar(s[0])], [rest[0]] + caps, " ");
      assert ([rest[0]] + caps)[1..] == caps;
      assert CapitalizeAll(rest) == [Capitalize(rest[0])] + caps;
      assert CapitalizeAll(rest)[1..] == caps;
      JoinConsFirst([s[0]], [rest[0]] + caps, " ");
    }
  }

  /**
    * `a.localeCompare(b)`, taken as the lexicographic order of code points
    * (Unicode scalar values): -1, 0 or 1 as a sorts before, with or after b.
    */
  function LocaleCompare(a: string, b: string): (r: int)
    ensures -1 <= r <= 1
  {
    if a == [] then (if b == [] then 0 else -1)
    else if b == [] then 1
    else if a[0] < b[0] then -1
    else if a[0] > b[0] then 1
    else LocaleCompare(a[1..], b[1..])
  }

  /** After a common prefix, the first differing characters decide, by code point. */
  lemma {:induction false} LocaleCompareFirstDifference(p: string, c: char, d: char, x: string, y: string)
    requires c < d
    ensures LocaleCompare(p + [c] + x, p + [d] + y) == -1
  {
    if p != [] {
      assert (p + [c] + x)[1..] == p[1..] + [c] + x;
      assert (p + [d] + y)[1..] == p[1..] + [d] + y;
      LocaleCompareFirstDifference(p[1..], c, d, x, y);
    } else {
      assert (p + [c] + x)[0] == c && (p + [d] + y)[0] == d;
    }
  }

  /**
    * A character above U+FFFF sorts after U+FF01 here, where UTF-16
    * code-unit order would put its leading surrogate (U+D83D) first.
    */
  lemma LocaleCompareAstralAfterBmp()
    ensures LocaleCompare("\U{FF01}", "\U{1F600}") == -1
  {
    LocaleCompareFirstDifference([], '\U{FF01}', '\U{1F600}', [], []);
  }

  /** Only equal strings compare as 0. */
  lemma {:induction false} LocaleCompareZeroIffEqual(a: string, b: string)
    ensures LocaleCompare(a, b) == 0 <==> a == b
  {
    if a != [] && b != [] && a[0] == b[0] {
      LocaleCompareZeroIffEqual(a[1..], b[1..]);
      assert a == [a[0]] + a[1..] && b == [b[0]] + b[1..];
    }
  }

  /** Swapping the operands negates the comparison. */
  lemma {:induction false} LocaleCompareAntisymmetric(a: string, b: string)
    ensures LocaleCompare(b, a) == -LocaleCompare(a, b)
  {
    if a != [] && b != [] && a[0] == b[0] {
      LocaleCompareAntisymmetric(a[1..], b[1..]);
    }
  }

  /** "Sorts no later than" is transitive. */
  lemma {:induction false} LocaleCompareTransitive(a: string, b: string, c: string)
    requires LocaleCompare(a, b) <= 0 && LocaleCompare(b, c) <= 0
    ensures LocaleCompare(a, c) <= 0
  {
    if a != [] && b != [] && c != [] && a[0] == b[0] && b[0] == c[0] {
      LocaleCompareTransitive(a[1..], b[1..], c[1..]);
    }
  }

  /** A decimal digit character. */
  function DigitChar(d: nat): char
    requires d < 10
  {
    "0123456789"[d]
  }

  /** The value of a digit character. */
  function DigitValue(c: char): nat {
    if '0' <= c <= '9' then (c as int) - ('0' as int) else 0
  }

  /** The number a string of decimal digits denotes, most significant digit first. */
  function DecimalValue(s: string): nat {
    if s == [] then 0 else DecimalValue(s[..|s| - 1]) * 10 + DigitValue(s[|s| - 1])
  }

  /**
    * The decimal text of n, as a template literal `${n}` renders a
    * non-negative integer: digits only, no leading zero, denoting n.
    */
  function NatToString(n: nat): (r: string)
    ensures |r| >= 1
    ensures forall i :: 0 <= i < |r| ==> '0' <= r[i] <= '9'
    ensures |r| > 1 ==> r[0] != '0'
    ensures DecimalValue(r) == n
  {
    if n < 10 then [DigitChar(n)] else NatToString(n / 10) + [DigitChar(n % 10)]
  }
}
