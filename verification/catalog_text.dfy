/**
 * The string helpers of the catalog script: HTML escaping, category normalisation,
 * menu labels and slugs derived from titles.
 */
module CatalogText {
  import opened Wrappers
  import opened Text

  /** `str.replace(/c/g, rep)` for a one-character pattern. */
  function ReplaceAll(s: string, c: char, rep: string): string {
    if s == [] then [] else (if s[0] == c then rep else [s[0]]) + ReplaceAll(s[1..], c, rep)
  }

  /** `escapeHtml`: null and undefined become the empty string; `&` is replaced first, then `"`, `'`, `<`, `>`. */
  function EscapeHtml(str: Option<string>): string {
    match str
    case None => ""
    case Some(s) => ReplaceChain(s)
  }

  function ReplaceChain(s: string): string {
    ReplaceRest(ReplaceAll(s, '&', "&amp;"))
  }

  /** The entity each character ends up as. */
  function EscapeChar(c: char): string {
    if c == '&' then "&amp;"
    else if c == '"' then "&quot;"
    else if c == '\'' then "&#39;"
    else if c == '<' then "&lt;"
    else if c == '>' then "&gt;"
    else [c]
  }

  /** A character-by-character escape, independent of the order of the replacements. */
  function EscapeEach(s: string): string {
    if s == [] then [] else EscapeChar(s[0]) + EscapeEach(s[1..])
  }

  lemma {:induction false} ReplaceAllAppend(a: string, b: string, c: char, rep: string)
    ensures ReplaceAll(a + b, c, rep) == ReplaceAll(a, c, rep) + ReplaceAll(b, c, rep)
  {
    if a == [] {
      assert a + b == b;
    } else {
      assert (a + b)[1..] == a[1..] + b;
      ReplaceAllAppend(a[1..], b, c, rep);
    }
  }

  lemma {:induction false} ReplaceAllAbsent(s: string, c: char, rep: string)
    requires c !in s
    ensures ReplaceAll(s, c, rep) == s
  {
    if s != [] {
      ReplaceAllAbsent(s[1..], c, rep);
      assert s == [s[0]] + s[1..];
    }
  }

  lemma ReplaceChainAppend(a: string, b: string)
    ensures ReplaceChain(a + b) == ReplaceChain(a) + ReplaceChain(b)
  {
    var r1a, r1b := ReplaceAll(a, '&', "&amp;"), ReplaceAll(b, '&', "&amp;");
    ReplaceAllAppend(a, b, '&', "&amp;");
    var r2a, r2b := ReplaceAll(r1a, '"', "&quot;"), ReplaceAll(r1b, '"', "&quot;");
    ReplaceAllAppend(r1a, r1b, '"', "&quot;");
    var r3a, r3b := ReplaceAll(r2a, '\'', "&#39;"), ReplaceAll(r2b, '\'', "&#39;");
    ReplaceAllAppend(r2a, r2b, '\'', "&#39;");
    var r4a, r4b := ReplaceAll(r3a, '<', "&lt;"), ReplaceAll(r3b, '<', "&lt;");
    ReplaceAllAppend(r3a, r3b, '<', "&lt;");
    ReplaceAllAppend(r4a, r4b, '>', "&gt;");
  }

  lemma ReplaceAllSingle(c: char, x: char, rep: string)
    ensures ReplaceAll([c], x, rep) == if c == x then rep else [c]
  {
    assert [c][1..] == [];
  }

  /** The chain leaves text without any of the five characters alone. */
  lemma ReplaceChainPlain(t: string)
    requires '&' !in t && '"' !in t && '\'' !in t && '<' !in t && '>' !in t
    ensures ReplaceChain(t) == t
  {
    ReplaceAllAbsent(t, '&', "&amp;");
    ReplaceAllAbsent(t, '"', "&quot;");
    ReplaceAllAbsent(t, '\'', "&#39;");
    ReplaceAllAbsent(t, '<', "&lt;");
    ReplaceAllAbsent(t, '>', "&gt;");
  }

  /** The last four stages of the chain. */
  function ReplaceRest(s: string): string {
    ReplaceAll(ReplaceAll(ReplaceAll(ReplaceAll(s, '"', "&quot;"), '\'', "&#39;"), '<', "&lt;"), '>', "&gt;")
  }

  /** One special character through the chain: the stage for its own pattern escapes it, and no later pattern occurs in the entity. */
  lemma ReplaceChainAmp()
    ensures ReplaceChain("&") == "&amp;"
  {
    ReplaceAllSingle('&', '&', "&amp;");
    ReplaceChainRestPlain("&amp;");
  }

  lemma ReplaceChainRestPlain(t: string)
    requires '"' !in t && '\'' !in t && '<' !in t && '>' !in t
    ensures ReplaceRest(t) == t
  {
    ReplaceAllAbsent(t, '"', "&quot;");
    ReplaceAllAbsent(t, '\'', "&#39;");
    ReplaceAllAbsent(t, '<', "&lt;");
    ReplaceAllAbsent(t, '>', "&gt;");
  }

  /** The last three stages leave a string without `'`, `<` and `>` alone. */
  lemma ReplaceLastThreePlain(t: string)
    requires '\'' !in t && '<' !in t && '>' !in t
    ensures ReplaceAll(ReplaceAll(ReplaceAll(t, '\'', "&#39;"), '<', "&lt;"), '>', "&gt;") == t
  {
    ReplaceAllAbsent(t, '\'', "&#39;");
    ReplaceAllAbsent(t, '<', "&lt;");
    ReplaceAllAbsent(t, '>', "&gt;");
  }

  lemma ReplaceChainQuot()
    ensures ReplaceChain(['"']) == "&quot;"
  {
    ReplaceAllSingle('"', '&', "&amp;");
    ReplaceAllSingle('"', '"', "&quot;");
    ReplaceLastThreePlain("&quot;");
  }

  lemma ReplaceChainApos()
    ensures ReplaceChain("'") == "&#39;"
  {
    ReplaceAllSingle('\'', '&', "&amp;");
    ReplaceAllSingle('\'', '"', "&quot;");
    ReplaceAllSingle('\'', '\'', "&#39;");
    ReplaceLastTwoPlain("&#39;");
  }

  /** The last two stages leave a string without `<` and `>` alone. */
  lemma ReplaceLastTwoPlain(t: string)
    requires '<' !in t && '>' !in t
    ensures ReplaceAll(ReplaceAll(t, '<', "&lt;"), '>', "&gt;") == t
  {
    ReplaceAllAbsent(t, '<', "&lt;");
    ReplaceAllAbsent(t, '>', "&gt;");
  }

  lemma ReplaceChainLt()
    ensures ReplaceChain("<") == "&lt;"
  {
    ReplaceAllSingle('<', '&', "&amp;");
    ReplaceAllSingle('<', '"', "&quot;");
    ReplaceAllSingle('<', '\'', "&#39;");
    ReplaceAllSingle('<', '<', "&lt;");
    ReplaceAllAbsent("&lt;", '>', "&gt;");
  }

  lemma ReplaceChainGt()
    ensures ReplaceChain(">") == "&gt;"
  {
    ReplaceAllSingle('>', '&', "&amp;");
    ReplaceAllSingle('>', '"', "&quot;");
    ReplaceAllSingle('>', '\'', "&#39;");
    ReplaceAllSingle('>', '<', "&lt;");
    ReplaceAllSingle('>', '>', "&gt;");
  }

  lemma ReplaceChainOne(c: char)
    ensures ReplaceChain([c]) == EscapeChar(c)
  {
    if c == '&' { ReplaceChainAmp(); }
    else if c == '"' { ReplaceChainQuot(); }
    else if c == '\'' { ReplaceChainApos(); }
    else if c == '<' { ReplaceChainLt(); }
    else if c == '>' { ReplaceChainGt(); }
    else { ReplaceChainPlain([c]); }
  }

  /** Because `&` goes first, the five replacements in sequence escape each character exactly once. */
  lemma {:induction false} ReplaceChainIsEscapeEach(s: string)
    ensures ReplaceChain(s) == EscapeEach(s)
  {
    if s != [] {
      assert s == [s[0]] + s[1..];
      ReplaceChainAppend([s[0]], s[1..]);
      ReplaceChainOne(s[0]);
      ReplaceChainIsEscapeEach(s[1..]);
    }
  }

  predicate IsMarkup(c: char) {
    c == '<' || c == '>' || c == '"' || c == '\''
  }

  lemma {:induction false} EscapeEachHasNoMarkup(s: string)
    ensures forall i :: 0 <= i < |EscapeEach(s)| ==> !IsMarkup(EscapeEach(s)[i])
  {
    if s != [] {
      EscapeEachHasNoMarkup(s[1..]);
      var e := EscapeChar(s[0]);
      assert forall i :: 0 <= i < |e| ==> !IsMarkup(e[i]);
    }
  }

  /** The escaped text holds no raw `<`, `>`, `"` or `'`; null and undefined escape to the empty string. */
  lemma EscapeHtmlHasNoMarkup(str: Option<string>)
    ensures str.None? ==> EscapeHtml(str) == ""
    ensures forall i :: 0 <= i < |EscapeHtml(str)| ==> !IsMarkup(EscapeHtml(str)[i])
  {
    if str.Some? {
      ReplaceChainIsEscapeEach(str.value);
      EscapeEachHasNoMarkup(str.value);
    }
  }

  /** Reads the five entities back to the characters they stand for. */
  function Unescape(s: string): string
    decreases |s|
  {
    if s == [] then []
    else if |s| >= 5 && s[..5] == "&amp;" then "&" + Unescape(s[5..])
    else if |s| >= 6 && s[..6] == "&quot;" then "\"" + Unescape(s[6..])
    else if |s| >= 5 && s[..5] == "&#39;" then "'" + Unescape(s[5..])
    else if |s| >= 4 && s[..4] == "&lt;" then "<" + Unescape(s[4..])
    else if |s| >= 4 && s[..4] == "&gt;" then ">" + Unescape(s[4..])
    else [s[0]] + Unescape(s[1..])
  }

  lemma UnescapeEscapeChar(c: char, rest: string)
    ensures Unescape(EscapeChar(c) + rest) == [c] + Unescape(rest)
  {
    var t := EscapeChar(c) + rest;
    var e := EscapeChar(c);
    assert t[..|e|] == e && t[|e|..] == rest;
    if c == '&' {
      assert t[..5] == "&amp;";
    } else if c == '"' {
      assert t[..6] == "&quot;" && t[1] == 'q';
      assert t[..5][1] == 'q';
    } else if c == '\'' {
      assert t[..5] == "&#39;" && t[1] == '#';
      assert |t| >= 6 ==> t[..6][1] == '#';
    } else if c == '<' {
      assert t[..4] == "&lt;" && t[1] == 'l';
      assert |t| >= 5 ==> t[..5][1] == 'l';
      assert |t| >= 6 ==> t[..6][1] == 'l';
    } else if c == '>' {
      assert t[..4] == "&gt;" && t[1] == 'g';
      assert |t| >= 5 ==> t[..5][1] == 'g';
      assert |t| >= 6 ==> t[..6][1] == 'g';
      assert t[..4][1] == 'g';
    } else {
      assert e == [c];
      assert t[0] == c && t[1..] == rest;
      assert |t| >= 4 ==> t[..4][0] == c;
      assert |t| >= 5 ==> t[..5][0] == c;
      assert |t| >= 6 ==> t[..6][0] == c;
    }
  }

  /** Escaping loses nothing: reading the entities back gives the original text. */
  lemma {:induction false} UnescapeEscape(s: string)
    ensures Unescape(EscapeHtml(Some(s))) == s
  {
    ReplaceChainIsEscapeEach(s);
    UnescapeEscapeEach(s);
  }

  lemma {:induction false} UnescapeEscapeEach(s: string)
    ensures Unescape(EscapeEach(s)) == s
  {
    if s != [] {
      UnescapeEscapeChar(s[0], EscapeEach(s[1..]));
      UnescapeEscapeEach(s[1..]);
      assert s == [s[0]] + s[1..];
    }
  }

  /** `normalizeCategory`: `(cat || '').toString().trim().toLowerCase()`, the missing value being "". */
  function NormalizeCategory(cat: string): (r: string)
    ensures IsTrimmed(r) && HasNoUpper(r)
  {
    ToLowerKeepsTrimmed(Trim(cat));
    ToLower(Trim(cat))
  }

  lemma NormalizeCategoryIdempotent(cat: string)
    ensures NormalizeCategory(NormalizeCategory(cat)) == NormalizeCategory(cat)
  {
    var n := NormalizeCategory(cat);
    TrimOfTrimmed(n);
    ToLowerIdempotent(n);
  }

  predicate AllWhitespace(s: string) {
    forall i :: 0 <= i < |s| ==> IsWhitespace(s[i])
  }

  /** Equal once lower-cased, character by character. */
  predicate SameUpToCase(a: string, b: string) {
    |a| == |b| && forall i :: 0 <= i < |a| ==> LowerChar(a[i]) == LowerChar(b[i])
  }

  lemma {:induction false} LeadingSpaceUpToCase(a: string, b: string)
    requires SameUpToCase(a, b)
    ensures LeadingSpace(a) == LeadingSpace(b)
  {
    if |a| > 0 {
      assert IsWhitespace(a[0]) == IsWhitespace(LowerChar(a[0])) == IsWhitespace(b[0]);
      LeadingSpaceUpToCase(a[1..], b[1..]);
    }
  }

  lemma {:induction false} TrailingSpaceUpToCase(a: string, b: string)
    requires SameUpToCase(a, b)
    ensures TrailingSpace(a) == TrailingSpace(b)
  {
    if |a| > 0 {
      var n := |a| - 1;
      assert IsWhitespace(a[n]) == IsWhitespace(LowerChar(a[n])) == IsWhitespace(b[n]);
      TrailingSpaceUpToCase(a[..n], b[..n]);
    }
  }

  /** Categories that differ only in letter case normalise alike. */
  lemma NormalizeCategoryIgnoresCase(a: string, b: string)
    requires SameUpToCase(a, b)
    ensures NormalizeCategory(a) == NormalizeCategory(b)
  {
    LeadingSpaceUpToCase(a, b);
    var i := LeadingSpace(a);
    assert SameUpToCase(a[i..], b[i..]);
    TrailingSpaceUpToCase(a[i..], b[i..]);
  }

  lemma {:induction false} LeadingSpaceSkip(p: string, s: string)
    requires AllWhitespace(p)
    ensures LeadingSpace(p + s) == |p| + LeadingSpace(s)
  {
    if p == [] {
      assert p + s == s;
    } else {
      assert (p + s)[1..] == p[1..] + s;
      LeadingSpaceSkip(p[1..], s);
    }
  }

  lemma {:induction false} TrailingSpaceSkip(s: string, q: string)
    requires AllWhitespace(q)
    ensures TrailingSpace(s + q) == |q| + TrailingSpace(s)
  {
    if q == [] {
      assert s + q == s;
    } else {
      var n := |q| - 1;
      assert (s + q)[..|s + q| - 1] == s + q[..n];
      TrailingSpaceSkip(s, q[..n]);
    }
  }

  /** Trimming a padded text whose core has a non-whitespace character. */
  lemma TrimPaddedCore(p: string, s: string, q: string)
    requires AllWhitespace(p) && AllWhitespace(q) && LeadingSpace(s) < |s|
    ensures Trim(p + s + q) == Trim(s)
  {
    var l := LeadingSpace(s);
    var u := s[l..];
    var j := |u| - TrailingSpace(u);
    TrimPadded(p, s, q);
    TakeAppend(u, q, j);
    TrimFrom(s, l, u);
  }

  lemma TrimPadded(p: string, s: string, q: string)
    requires AllWhitespace(p) && AllWhitespace(q) && LeadingSpace(s) < |s|
    ensures var u := s[LeadingSpace(s)..];
            Trim(p + s + q) == (u + q)[..|u| - TrailingSpace(u)]
  {
    var u := s[LeadingSpace(s)..];
    PaddedStart(p, s, q);
    TrailingSpaceSkip(u, q);
  }

  /** Where the padded text's core starts, and what follows. */
  lemma PaddedStart(p: string, s: string, q: string)
    requires AllWhitespace(p) && LeadingSpace(s) < |s|
    ensures var t := s[LeadingSpace(s)..] + q;
            Trim(p + s + q) == t[..|t| - TrailingSpace(t)]
  {
    var l := LeadingSpace(s);
    var x := p + s + q;
    var t := s[l..] + q;
    assert LeadingSpace(x) == |p| + l <= |x| && x[|p| + l..] == t by {
      LeadingSpacePadded(p, s, q);
      PaddedSuffix(p, s, q, l);
    }
    TrimFrom(x, |p| + l, t);
  }

  lemma TakeAppend(u: string, q: string, j: nat)
    requires j <= |u|
    ensures (u + q)[..j] == u[..j]
  {
  }

  /** `trim` once the leading whitespace count and what follows it are known. */
  lemma TrimFrom(x: string, i: nat, t: string)
    requires LeadingSpace(x) == i <= |x| && x[i..] == t
    ensures Trim(x) == t[..|t| - TrailingSpace(t)]
  {
  }

  lemma PaddedSuffix(p: string, s: string, q: string, l: nat)
    requires l <= |s|
    ensures (p + s + q)[|p| + l..] == s[l..] + q
  {
    assert p + s + q == p + (s + q);
    assert (p + (s + q))[|p|..] == s + q;
  }

  lemma LeadingSpacePadded(p: string, s: string, q: string)
    requires AllWhitespace(p) && LeadingSpace(s) < |s|
    ensures LeadingSpace(p + s + q) == |p| + LeadingSpace(s)
  {
    assert p + s + q == p + (s + q);
    LeadingSpaceSkip(p, s + q);
    LeadingSpacePrefix(s, q);
  }

  /** Trimming text that is whitespace throughout gives the empty text. */
  lemma TrimAllWhitespace(x: string)
    requires AllWhitespace(x)
    ensures Trim(x) == []
  {
    assert LeadingSpace(x) == |x|;
  }

  /** Whitespace padding on either side does not change the normalised category. */
  lemma NormalizeCategoryIgnoresPadding(p: string, s: string, q: string)
    requires AllWhitespace(p) && AllWhitespace(q)
    ensures NormalizeCategory(p + s + q) == NormalizeCategory(s)
  {
    if LeadingSpace(s) < |s| {
      TrimPaddedCore(p, s, q);
    } else {
      assert AllWhitespace(s);
      assert AllWhitespace(p + s + q);
      TrimAllWhitespace(p + s + q);
      TrimAllWhitespace(s);
    }
  }

  /** A non-whitespace character in `s` stops the scan inside `s`. */
  lemma {:induction false} LeadingSpacePrefix(s: string, q: string)
    requires LeadingSpace(s) < |s|
    ensures LeadingSpace(s + q) == LeadingSpace(s)
  {
    if IsWhitespace(s[0]) {
      assert (s + q)[1..] == s[1..] + q;
      LeadingSpacePrefix(s[1..], q);
    }
  }

  /** `cat.split('-')`. */
  function Split(s: string): (parts: seq<string>)
    ensures |parts| >= 1
  {
    if s == [] then [""]
    else
      var rest := Split(s[1..]);
      if s[0] == '-' then [""] + rest else [[s[0]] + rest[0]] + rest[1..]
  }

  /** `parts.join(sep)`. */
  function Join(parts: seq<string>, sep: char): string {
    if |parts| == 0 then ""
    else if |parts| == 1 then parts[0]
    else parts[0] + [sep] + Join(parts[1..], sep)
  }

  lemma JoinConsPrefix(x: string, y: string, rest: seq<string>, sep: char)
    ensures Join([x + y] + rest, sep) == x + Join([y] + rest, sep)
  {
    assert ([x + y] + rest)[1..] == rest;
    assert ([y] + rest)[1..] == rest;
  }

  /** Joining the hyphen-split pieces with hyphens gives the category back. */
  lemma {:induction false} JoinSplit(s: string)
    ensures Join(Split(s), '-') == s
  {
    if s != [] {
      var rest := Split(s[1..]);
      JoinSplit(s[1..]);
      if s[0] == '-' {
        assert ([""] + rest)[1..] == rest;
      } else {
        assert rest == [rest[0]] + rest[1..];
        JoinConsPrefix([s[0]], rest[0], rest[1..], '-');
      }
      assert s == [s[0]] + s[1..];
    }
  }

  /** `s.charAt(0).toUpperCase() + s.slice(1)`. */
  function Capitalize(w: string): string {
    if w == [] then [] else [UpperChar(w[0])] + w[1..]
  }

  function CapitalizeAll(parts: seq<string>): (r: seq<string>)
    ensures |r| == |parts|
    ensures forall i :: 0 <= i < |parts| ==> r[i] == Capitalize(parts[i])
  {
    seq(|parts|, i requires 0 <= i < |parts| => Capitalize(parts[i]))
  }

  /** The humanised menu label: split on hyphens, capitalise each word, join with spaces. */
  function Label(cat: string): string {
    Join(CapitalizeAll(Split(cat)), ' ')
  }

  /** Character by character: a hyphen becomes a space and a word's first character is upper-cased. */
  function WordCase(s: string, atStart: bool): (r: string)
    ensures |r| == |s|
  {
    if s == [] then []
    else [if s[0] == '-' then ' ' else if atStart then UpperChar(s[0]) else s[0]] + WordCase(s[1..], s[0] == '-')
  }

  lemma {:induction false} WordCaseAt(s: string, atStart: bool, i: nat)
    requires i < |s|
    ensures WordCase(s, atStart)[i]
            == if s[i] == '-' then ' '
               else if (if i == 0 then atStart else s[i - 1] == '-') then UpperChar(s[i])
               else s[i]
  {
    if i > 0 {
      WordCaseAt(s[1..], s[0] == '-', i - 1);
    }
  }

  /** The two claims of LabelIsWordCase for `s`, given them for `s[1..]`, when `s` starts with a hyphen. */
  lemma LabelStepHyphen(s: string)
    requires s != [] && s[0] == '-'
    requires Join(CapitalizeAll(Split(s[1..])), ' ') == WordCase(s[1..], true)
    ensures Join(CapitalizeAll(Split(s)), ' ') == WordCase(s, true)
    ensures Join([Split(s)[0]] + CapitalizeAll(Split(s)[1..]), ' ') == WordCase(s, false)
  {
    var rest := Split(s[1..]);
    var caps := CapitalizeAll(rest);
    assert Split(s) == [""] + rest;
    assert CapitalizeAll([""] + rest) == [""] + caps;
    assert ([""] + caps)[1..] == caps;
    assert Split(s)[1..] == rest;
  }

  /** The same step when `s` starts with any other character. */
  lemma LabelStepChar(s: string)
    requires s != [] && s[0] != '-'
    requires var rest := Split(s[1..]);
             Join([rest[0]] + CapitalizeAll(rest[1..]), ' ') == WordCase(s[1..], false)
    ensures Join(CapitalizeAll(Split(s)), ' ') == WordCase(s, true)
    ensures Join([Split(s)[0]] + CapitalizeAll(Split(s)[1..]), ' ') == WordCase(s, false)
  {
    var rest := Split(s[1..]);
    var parts := [[s[0]] + rest[0]] + rest[1..];
    assert Split(s) == parts;
    assert parts[1..] == rest[1..];
    var caps := CapitalizeAll(rest[1..]);
    assert CapitalizeAll(parts) == [[UpperChar(s[0])] + rest[0]] + caps;
    JoinConsPrefix([UpperChar(s[0])], rest[0], caps, ' ');
    JoinConsPrefix([s[0]], rest[0], caps, ' ');
  }

  lemma {:induction false} LabelIsWordCase(s: string)
    ensures Join(CapitalizeAll(Split(s)), ' ') == WordCase(s, true)
    ensures Join([Split(s)[0]] + CapitalizeAll(Split(s)[1..]), ' ') == WordCase(s, false)
  {
    if s != [] {
      LabelIsWordCase(s[1..]);
      if s[0] == '-' {
        LabelStepHyphen(s);
      } else {
        LabelStepChar(s);
      }
    } else {
      assert Split(s)[1..] == [];
    }
  }

  /** A label is as long as its category; hyphens become spaces and each word starts upper-cased. */
  lemma LabelCharacters(cat: string)
    ensures |Label(cat)| == |cat|
    ensures forall i :: 0 <= i < |cat| ==>
              Label(cat)[i] == if cat[i] == '-' then ' '
                               else if i == 0 || cat[i - 1] == '-' then UpperChar(cat[i])
                               else cat[i]
  {
    LabelIsWordCase(cat);
    forall i | 0 <= i < |cat| ensures Label(cat)[i] == if cat[i] == '-' then ' '
                               else if i == 0 || cat[i - 1] == '-' then UpperChar(cat[i])
                               else cat[i] {
      WordCaseAt(cat, true, i);
    }
  }

  /** `.replace(/\s+/g, '-')`: every maximal run of whitespace becomes one hyphen. */
  function CollapseSpace(s: string): (r: string)
    ensures forall i :: 0 <= i < |r| ==> !IsWhitespace(r[i])
    ensures |r| <= |s|
    ensures |r| == 0 <==> |s| == 0
    ensures (forall i :: 0 <= i < |s| ==> !IsUpper(s[i])) ==> forall i :: 0 <= i < |r| ==> !IsUpper(r[i])
    decreases |s|
  {
    if s == [] then []
    else if IsWhitespace(s[0]) then "-" + CollapseSpace(s[LeadingSpace(s)..])
    else [s[0]] + CollapseSpace(s[1..])
  }

  lemma {:induction false} CollapseSpaceNoSpace(s: string)
    requires forall i :: 0 <= i < |s| ==> !IsWhitespace(s[i])
    ensures CollapseSpace(s) == s
  {
    if s != [] {
      CollapseSpaceNoSpace(s[1..]);
      assert s == [s[0]] + s[1..];
    }
  }

  /** The slug `init` derives from a title: lower-cased, whitespace runs replaced by hyphens. */
  function Slugify(title: string): (slug: string)
    ensures forall i :: 0 <= i < |slug| ==> !IsWhitespace(slug[i]) && !IsUpper(slug[i])
    ensures |slug| == 0 <==> |title| == 0
  {
    CollapseSpace(ToLower(title))
  }

  /** A slug is its own slug. */
  lemma SlugifyIdempotent(title: string)
    ensures Slugify(Slugify(title)) == Slugify(title)
  {
    var s := Slugify(title);
    ToLowerIdempotent(s);
    CollapseSpaceNoSpace(s);
  }
}
