/**
 * `normalizeKey`: the canonical form of a title used for de-duplication and
 * search. Trim, lower-case, blank out emoji and punctuation, collapse white
 * space, trim again.
 */
module NormalizeKey {
  import opened Common
  import opened Text

  /**
   * `\p{L}`, restricted to the Latin (Basic, Latin-1, Extended-A/B, IPA
   * Extensions) and Cyrillic letters, and the two Latin Extended-C letters
   * that are lower cases of Extended-B capitals.
   */
  predicate IsLetter(c: char) {
    ('a' <= c <= 'z') || ('A' <= c <= 'Z') || c == '\U{00AA}' || c == '\U{00B5}' || c == '\U{00BA}'
    || ('\U{00C0}' <= c <= '\U{00D6}') || ('\U{00D8}' <= c <= '\U{00F6}') || ('\U{00F8}' <= c <= '\U{02AF}')
    || ('\U{0400}' <= c <= '\U{0481}') || ('\U{048A}' <= c <= '\U{052F}') || c == '\U{2C65}' || c == '\U{2C66}'
  }

  /** `\p{N}`, restricted to the ASCII digits and the Latin-1 superscripts and fractions. */
  predicate IsNumber(c: char) {
    ('0' <= c <= '9') || c == '\U{00B2}' || c == '\U{00B3}' || c == '\U{00B9}' || ('\U{00BC}' <= c <= '\U{00BE}')
  }

  /** `\p{Extended_Pictographic}`, approximated by the emoji planes and the symbol blocks emoji are drawn from. */
  predicate IsPictographic(c: char) {
    c == '\U{00A9}' || c == '\U{00AE}' || c == '\U{203C}' || c == '\U{2049}' || c == '\U{2122}' || c == '\U{2139}'
    || ('\U{2190}' <= c <= '\U{21FF}') || ('\U{2300}' <= c <= '\U{23FF}') || ('\U{25A0}' <= c <= '\U{27BF}')
    || ('\U{2900}' <= c <= '\U{297F}') || ('\U{2B00}' <= c <= '\U{2BFF}') || ('\U{1F000}' <= c <= '\U{1FAFF}')
  }

  /** What the key keeps: letters and numbers. */
  predicate IsWordChar(c: char) { IsLetter(c) || IsNumber(c) }

  /**
   * The distance from a code point to its lower case, by Unicode's simple
   * case mapping, for the upper- and title-case letters among the letters
   * above; 0 for every other code point. U+0130 (capital I with dot above),
   * whose lower case is two characters, maps to itself.
   */
  function LowerOffset(n: int): int {
    if n < 0x100 then Latin1Offset(n)
    else if n < 0x180 then ExtendedAOffset(n)
    else if n < 0x1C4 then ExtendedBLowOffset(n)
    else if n < 0x250 then ExtendedBHighOffset(n)
    else if 0x400 <= n < 0x530 then CyrillicOffset(n)
    else 0
  }

  /** The case table on Basic Latin and Latin-1. */
  function Latin1Offset(n: int): int {
    if 0x0041 <= n <= 0x005A then 32
    else if 0x00C0 <= n <= 0x00D6 then 32
    else if 0x00D8 <= n <= 0x00DE then 32
    else 0
  }

  /** The case table on Latin Extended-A. */
  function ExtendedAOffset(n: int): int {
    if 0x0100 <= n <= 0x012E && n % 2 == 0 then 1
    else if 0x0132 <= n <= 0x0136 && n % 2 == 0 then 1
    else if 0x0139 <= n <= 0x0147 && n % 2 == 1 then 1
    else if 0x014A <= n <= 0x0176 && n % 2 == 0 then 1
    else if n == 0x0178 then -121
    else if 0x0179 <= n <= 0x017D && n % 2 == 1 then 1
    else 0
  }

  /** The case table on the first half of Latin Extended-B. */
  function ExtendedBLowOffset(n: int): int {
    if n == 0x0181 then 210
    else if 0x0182 <= n <= 0x0184 && n % 2 == 0 then 1
    else if n == 0x0186 then 206
    else if n == 0x0187 then 1
    else if 0x0189 <= n <= 0x018A then 205
    else if n == 0x018B then 1
    else if n == 0x018E then 79
    else if n == 0x018F then 202
    else if n == 0x0190 then 203
    else if n == 0x0191 then 1
    else if n == 0x0193 then 205
    else if n == 0x0194 then 207
    else if n == 0x0196 then 211
    else if n == 0x0197 then 209
    else if n == 0x0198 then 1
    else if n == 0x019C then 211
    else if n == 0x019D then 213
    else if n == 0x019F then 214
    else if 0x01A0 <= n <= 0x01A4 && n % 2 == 0 then 1
    else if n == 0x01A6 then 218
    else if n == 0x01A7 then 1
    else if n == 0x01A9 then 218
    else if n == 0x01AC then 1
    else if n == 0x01AE then 218
    else if n == 0x01AF then 1
    else if 0x01B1 <= n <= 0x01B2 then 217
    else if 0x01B3 <= n <= 0x01B5 && n % 2 == 1 then 1
    else if n == 0x01B7 then 219
    else if n == 0x01B8 then 1
    else if n == 0x01BC then 1
    else 0
  }

  /** The case table on the second half of Latin Extended-B. */
  function ExtendedBHighOffset(n: int): int {
    if n == 0x01C4 then 2
    else if n == 0x01C5 then 1
    else if n == 0x01C7 then 2
    else if n == 0x01C8 then 1
    else if n == 0x01CA then 2
    else if 0x01CB <= n <= 0x01DB && n % 2 == 1 then 1
    else if 0x01DE <= n <= 0x01EE && n % 2 == 0 then 1
    else if n == 0x01F1 then 2
    else if 0x01F2 <= n <= 0x01F4 && n % 2 == 0 then 1
    else if n == 0x01F6 then -97
    else if n == 0x01F7 then -56
    else if 0x01F8 <= n <= 0x021E && n % 2 == 0 then 1
    else if n == 0x0220 then -130
    else if 0x0222 <= n <= 0x0232 && n % 2 == 0 then 1
    else if n == 0x023A then 10795
    else if n == 0x023B then 1
    else if n == 0x023D then -163
    else if n == 0x023E then 10792
    else if n == 0x0241 then 1
    else if n == 0x0243 then -195
    else if n == 0x0244 then 69
    else if n == 0x0245 then 71
    else if 0x0246 <= n <= 0x024E && n % 2 == 0 then 1
    else 0
  }

  /** The case table on Cyrillic and Cyrillic Supplement. */
  function CyrillicOffset(n: int): int {
    if 0x0400 <= n <= 0x040F then 80
    else if 0x0410 <= n <= 0x042F then 32
    else if 0x0460 <= n <= 0x0480 && n % 2 == 0 then 1
    else if 0x048A <= n <= 0x04BE && n % 2 == 0 then 1
    else if n == 0x04C0 then 15
    else if 0x04C1 <= n <= 0x04CD && n % 2 == 1 then 1
    else if 0x04D0 <= n <= 0x052E && n % 2 == 0 then 1
    else 0
  }

  /** `toLowerCase` on one character. */
  function Lower(c: char): char {
    var d := LowerOffset(c as int);
    if d == 0 then c
    else
      LowerOffsetSound(c as int);
      (c as int + d) as char
  }

  /** A code point the table moves is a letter, and moves to a letter the table leaves where it is. */
  predicate LowersSoundly(n: int) {
    LowerOffset(n) != 0 ==>
      var m := n + LowerOffset(n);
      && 0 <= n < 0xD800 && 0 <= m < 0xD800
      && IsLetter(n as char) && IsLetter(m as char) && LowerOffset(m) == 0
  }

  // The table checked block by block.

  lemma LowersSoundlyLatin1(n: int)
    requires 0 <= n < 0x100
    ensures LowersSoundly(n)
  {
  }

  lemma LowersSoundlyExtendedA(n: int)
    requires 0x100 <= n < 0x180
    ensures LowersSoundly(n)
  {
  }

  lemma LowersSoundlyExtendedBLow(n: int)
    requires 0x180 <= n < 0x1C4
    ensures LowersSoundly(n)
  {
  }

  lemma LowersSoundlyExtendedBHigh(n: int)
    requires 0x1C4 <= n < 0x250
    ensures LowersSoundly(n)
  {
  }

  lemma LowersSoundlyCyrillic(n: int)
    requires 0x400 <= n < 0x530
    ensures LowersSoundly(n)
  {
  }

  /** Every code point lowers soundly. */
  lemma LowerOffsetSound(n: int)
    requires 0 <= n
    ensures LowersSoundly(n)
  {
    if n < 0x100 {
      LowersSoundlyLatin1(n);
    } else if n < 0x180 {
      LowersSoundlyExtendedA(n);
    } else if n < 0x1C4 {
      LowersSoundlyExtendedBLow(n);
    } else if n < 0x250 {
      LowersSoundlyExtendedBHigh(n);
    } else if 0x400 <= n < 0x530 {
      LowersSoundlyCyrillic(n);
    }
  }

  /** Lower-casing is idempotent and keeps each character's class. */
  /** The letters of the supported languages that have a lower case lose it; İ and non-letters are kept. */
  lemma LowerExamples()
    ensures Lower('\U{0490}') == '\U{0491}' && Lower('\U{0100}') == '\U{0101}' && Lower('\U{0178}') == '\U{00FF}'
    ensures Lower('\U{01C5}') == '\U{01C6}' && Lower('\U{042F}') == '\U{044F}' && Lower('\U{0401}') == '\U{0451}'
    ensures Lower('\U{0130}') == '\U{0130}' && Lower('7') == '7' && Lower(' ') == ' '
    ensures LowerAll("\U{0490}\U{0430}\U{043D}\U{043E}\U{043A}") == "\U{0491}\U{0430}\U{043D}\U{043E}\U{043A}"
  {
  }

  lemma LowerFacts(c: char)
    ensures Lower(Lower(c)) == Lower(c)
    ensures IsWordChar(Lower(c)) <==> IsWordChar(c)
    ensures IsSpace(Lower(c)) <==> IsSpace(c)
  {
    LowerOffsetSound(c as int);
    if LowerOffset(c as int) != 0 {
      var m := c as int + LowerOffset(c as int);
      LowerOffsetSound(m);
      ClassesDisjoint(c);
      ClassesDisjoint(m as char);
    }
  }

  /** The character classes involved do not overlap. */
  lemma ClassesDisjoint(c: char)
    ensures IsWordChar(c) ==> !IsSpace(c) && !IsPictographic(c)
    ensures IsPictographic(c) ==> !IsSpace(c)
  {
  }

  /** `toLowerCase()`, character by character. */
  function LowerAll(s: string): (r: string)
    ensures |r| == |s|
  {
    if s == [] then [] else [Lower(s[0])] + LowerAll(s[1..])
  }

  lemma {:induction false} LowerAllChars(s: string)
    ensures forall i :: 0 <= i < |s| ==> LowerAll(s)[i] == Lower(s[i])
  {
    if s != [] {
      LowerAllChars(s[1..]);
    }
  }

  /** `replace(/\p{Extended_Pictographic}/gu, " ")`. */
  function BlankPictographs(s: string): (r: string)
    ensures |r| == |s|
  {
    if s == [] then [] else [if IsPictographic(s[0]) then ' ' else s[0]] + BlankPictographs(s[1..])
  }

  /** Each pictographic character becomes one space; every other character is kept in place. */
  lemma {:induction false} BlankPictographsChars(s: string)
    ensures forall i :: 0 <= i < |s| ==> BlankPictographs(s)[i] == if IsPictographic(s[i]) then ' ' else s[i]
  {
    if s != [] {
      BlankPictographsChars(s[1..]);
    }
  }

  /** `replace(/[^\p{L}\p{N}\s]/gu, " ")`. */
  function BlankPunctuation(s: string): (r: string)
    ensures |r| == |s|
  {
    if s == [] then [] else [if IsWordChar(s[0]) || IsSpace(s[0]) then s[0] else ' '] + BlankPunctuation(s[1..])
  }

  /** Each character that is neither a letter, a number nor white space becomes one space; the rest are kept in place. */
  lemma {:induction false} BlankPunctuationChars(s: string)
    ensures forall i :: 0 <= i < |s| ==> BlankPunctuation(s)[i] == if IsWordChar(s[i]) || IsSpace(s[i]) then s[i] else ' '
  {
    if s != [] {
      BlankPunctuationChars(s[1..]);
    }
  }

  /** Every white-space character is a plain space and no two are adjacent. */
  predicate SingleSpaced(s: string) {
    (forall i :: 0 <= i < |s| ==> IsSpace(s[i]) ==> s[i] == ' ')
    && (forall i :: 0 <= i < |s| - 1 ==> !(IsSpace(s[i]) && IsSpace(s[i + 1])))
  }

  /** `replace(/\s+/g, " ")`: each maximal run of white space becomes one space. */
  function CollapseSpaces(s: string): (r: string)
    ensures |r| <= |s|
    ensures s != [] ==> r != [] && (IsSpace(s[0]) ==> r[0] == ' ') && (!IsSpace(s[0]) ==> r[0] == s[0])
    decreases |s|
  {
    if s == [] then []
    else if IsSpace(s[0]) then [' '] + CollapseSpaces(TrimStart(s[1..]))
    else [s[0]] + CollapseSpaces(s[1..])
  }

  /** The collapsed string is single-spaced and holds only spaces and characters of the input. */
  lemma CollapseSpacesShape(s: string)
    ensures SingleSpaced(CollapseSpaces(s))
    ensures forall i :: 0 <= i < |CollapseSpaces(s)| ==> CollapseSpaces(s)[i] == ' ' || CollapseSpaces(s)[i] in s
  {
    CollapseSingle(s);
    CollapseChars(s);
  }

  lemma {:induction false} CollapseSingle(s: string)
    ensures SingleSpaced(CollapseSpaces(s))
    decreases |s|
  {
    if s != [] {
      var rest := if IsSpace(s[0]) then TrimStart(s[1..]) else s[1..];
      CollapseSingle(rest);
      ConsSingleSpaced(if IsSpace(s[0]) then ' ' else s[0], CollapseSpaces(rest));
    }
  }

  lemma {:induction false} CollapseChars(s: string)
    ensures forall i :: 0 <= i < |CollapseSpaces(s)| ==> CollapseSpaces(s)[i] == ' ' || CollapseSpaces(s)[i] in s
    decreases |s|
  {
    if s != [] {
      var rest := if IsSpace(s[0]) then TrimStart(s[1..]) else s[1..];
      assert rest == s[|s| - |rest|..];
      CollapseChars(rest);
      var r, tail := CollapseSpaces(s), CollapseSpaces(rest);
      assert r == [r[0]] + tail;
      forall i | 0 <= i < |r| ensures r[i] == ' ' || r[i] in s {
        if i > 0 && tail[i - 1] != ' ' {
          assert r[i] == tail[i - 1];
          SuffixChar(s, rest, r[i]);
        }
      }
    }
  }

  lemma SuffixChar(s: string, t: string, c: char)
    requires |t| <= |s| && t == s[|s| - |t|..] && c in t
    ensures c in s
  {
    var j :| 0 <= j < |t| && t[j] == c;
    assert s[|s| - |t| + j] == c;
  }

  /** Putting `c` in front of a single-spaced string keeps it single-spaced unless it makes two spaces meet. */
  lemma ConsSingleSpaced(c: char, t: string)
    requires SingleSpaced(t) && (IsSpace(c) ==> c == ' ')
    requires IsSpace(c) && t != [] ==> !IsSpace(t[0])
    ensures SingleSpaced([c] + t)
  {
    var r := [c] + t;
    assert forall i :: 1 <= i < |r| ==> r[i] == t[i - 1];
  }

  /** The form every key takes: lower-cased letters and numbers separated by single spaces. */
  predicate IsKey(k: string) {
    Trimmed(k)
    && SingleSpaced(k)
    && forall i :: 0 <= i < |k| ==> KeyChar(k[i])
  }

  predicate KeyChar(c: char) {
    c == ' ' || (IsWordChar(c) && Lower(c) == c)
  }

  /** `normalizeKey(input)`: trim, lower-case, blank pictographs and punctuation, collapse spaces, trim. */
  function Normalize(input: string): string {
    Trim(CollapseSpaces(BlankPunctuation(BlankPictographs(LowerAll(Trim(input))))))
  }

  /** Every key is trimmed, single-spaced, and made of lower-case letters and numbers and the spaces between them. */
  lemma NormalizedIsKey(input: string)
    ensures IsKey(Normalize(input))
  {
    var lowered := LowerAll(Trim(input));
    LowerAllFixed(Trim(input));
    var blanked := BlankPunctuation(BlankPictographs(lowered));
    var collapsed := CollapseSpaces(blanked);
    KeyShape(lowered, blanked, collapsed, Trim(collapsed));
  }

  lemma LowerAllFixed(s: string)
    ensures forall i :: 0 <= i < |s| ==> Lower(LowerAll(s)[i]) == LowerAll(s)[i]
  {
    LowerAllChars(s);
    forall i | 0 <= i < |s| ensures Lower(LowerAll(s)[i]) == LowerAll(s)[i] {
      LowerFacts(s[i]);
    }
  }

  /** A character that may appear in `blanked`: a space character or a lower-cased letter or number. */
  predicate BlankedChar(c: char) {
    IsSpace(c) || (IsWordChar(c) && Lower(c) == c)
  }

  lemma BlankedChars(lowered: string, blanked: string)
    requires forall i :: 0 <= i < |lowered| ==> Lower(lowered[i]) == lowered[i]
    requires blanked == BlankPunctuation(BlankPictographs(lowered))
    ensures forall i :: 0 <= i < |blanked| ==> BlankedChar(blanked[i])
  {
    var p := BlankPictographs(lowered);
    BlankPictographsChars(lowered);
    BlankPunctuationChars(p);
    forall i | 0 <= i < |blanked| ensures BlankedChar(blanked[i]) {
      ClassesDisjoint(lowered[i]);
      assert p[i] == if IsPictographic(lowered[i]) then ' ' else lowered[i];
      assert blanked[i] == if IsWordChar(p[i]) || IsSpace(p[i]) then p[i] else ' ';
    }
  }

  lemma KeyShape(lowered: string, blanked: string, collapsed: string, key: string)
    requires forall i :: 0 <= i < |lowered| ==> Lower(lowered[i]) == lowered[i]
    requires blanked == BlankPunctuation(BlankPictographs(lowered))
    requires collapsed == CollapseSpaces(blanked)
    requires key == Trim(collapsed)
    ensures IsKey(key)
  {
    CollapsedKeyChars(lowered, blanked, collapsed);
    CollapseSpacesShape(blanked);
    TrimKeepsShape(collapsed);
  }

  /** After blanking and collapsing, every character is a space or a lower-case word character. */
  lemma CollapsedKeyChars(lowered: string, blanked: string, collapsed: string)
    requires forall i :: 0 <= i < |lowered| ==> Lower(lowered[i]) == lowered[i]
    requires blanked == BlankPunctuation(BlankPictographs(lowered))
    requires collapsed == CollapseSpaces(blanked)
    ensures forall i :: 0 <= i < |collapsed| ==> KeyChar(collapsed[i])
  {
    BlankedChars(lowered, blanked);
    CollapseSpacesShape(blanked);
    forall i | 0 <= i < |collapsed| ensures KeyChar(collapsed[i]) {
      if collapsed[i] != ' ' {
        var j :| 0 <= j < |blanked| && blanked[j] == collapsed[i];
        BlankedKeyChar(blanked[j]);
      }
    }
  }

  /** Trimming a single-spaced string of key characters gives a key. */
  lemma TrimKeepsShape(s: string)
    requires SingleSpaced(s) && forall i :: 0 <= i < |s| ==> KeyChar(s[i])
    ensures IsKey(Trim(s))
  {
    TrimIsSlice(s);
    var k := LeadingSpaces(s);
    SliceKeepsShape(s, k, k + |Trim(s)|);
  }

  lemma BlankedKeyChar(c: char)
    requires BlankedChar(c) && (IsSpace(c) ==> c == ' ')
    ensures KeyChar(c)
  {
  }

  lemma SliceKeepsShape(s: string, a: nat, b: nat)
    requires a <= b <= |s|
    requires SingleSpaced(s) && forall i :: 0 <= i < |s| ==> KeyChar(s[i])
    ensures SingleSpaced(s[a..b]) && forall i :: 0 <= i < b - a ==> KeyChar(s[a..b][i])
  {
    var t := s[a..b];
    assert forall i :: 0 <= i < |t| ==> t[i] == s[a + i];
  }

  /** `input ?? ""`: a missing input is normalised as the empty string. */
  function NormalizeNullable(input: Option<string>): (key: string)
    ensures input.None? ==> key == ""
    ensures IsKey(key)
  {
    NormalizedIsKey(input.GetOr(""));
    Normalize(input.GetOr(""))
  }

  /** The letters and numbers of `s`, in order. */
  function WordChars(s: string): string {
    if s == [] then [] else (if IsWordChar(s[0]) then [s[0]] else []) + WordChars(s[1..])
  }

  lemma {:induction false} WordCharsAppend(a: string, b: string)
    ensures WordChars(a + b) == WordChars(a) + WordChars(b)
  {
    if a == [] {
      assert a + b == b;
    } else {
      assert (a + b)[0] == a[0] && (a + b)[1..] == a[1..] + b;
      WordCharsAppend(a[1..], b);
      var head := if IsWordChar(a[0]) then [a[0]] else [];
      assert WordChars(a + b) == head + WordChars(a[1..] + b);
      assert WordChars(a) == head + WordChars(a[1..]);
    }
  }

  lemma {:induction false} WordCharsOfSpaces(s: string)
    requires AllSpace(s)
    ensures WordChars(s) == []
  {
    if s != [] {
      ClassesDisjoint(s[0]);
      WordCharsOfSpaces(s[1..]);
    }
  }

  lemma WordCharsTrimStart(s: string)
    ensures WordChars(TrimStart(s)) == WordChars(s)
  {
    var n := |s| - |TrimStart(s)|;
    assert s == s[..n] + TrimStart(s);
    TrimStartDrops(s);
    WordCharsAppend(s[..n], TrimStart(s));
    WordCharsOfSpaces(s[..n]);
  }

  lemma WordCharsTrimEnd(s: string)
    ensures WordChars(TrimEnd(s)) == WordChars(s)
  {
    var n := |TrimEnd(s)|;
    assert s == TrimEnd(s) + s[n..];
    TrimEndDrops(s);
    WordCharsAppend(TrimEnd(s), s[n..]);
    WordCharsOfSpaces(s[n..]);
  }

  lemma WordCharsTrim(s: string)
    ensures WordChars(Trim(s)) == WordChars(s)
  {
    assert Trim(s) == TrimEnd(TrimStart(s));
    WordCharsTrimStart(s);
    WordCharsTrimEnd(TrimStart(s));
  }

  lemma {:induction false} WordCharsLower(s: string)
    ensures WordChars(LowerAll(s)) == LowerAll(WordChars(s))
  {
    if s != [] {
      LowerFacts(s[0]);
      WordCharsLower(s[1..]);
      assert LowerAll(s)[1..] == LowerAll(s[1..]);
      var head := if IsWordChar(s[0]) then [s[0]] else [];
      assert WordChars(s) == head + WordChars(s[1..]);
      LowerAllAppend(head, WordChars(s[1..]));
    }
  }

  lemma {:induction false} LowerAllAppend(a: string, b: string)
    ensures LowerAll(a + b) == LowerAll(a) + LowerAll(b)
  {
    LowerAllChars(a);
    LowerAllChars(b);
    LowerAllChars(a + b);
    assert forall i :: 0 <= i < |a + b| ==> LowerAll(a + b)[i] == (LowerAll(a) + LowerAll(b))[i];
  }

  lemma {:induction false} WordCharsBlanking(s: string)
    ensures WordChars(BlankPictographs(s)) == WordChars(s)
    ensures WordChars(BlankPunctuation(s)) == WordChars(s)
  {
    if s != [] {
      ClassesDisjoint(s[0]);
      WordCharsBlanking(s[1..]);
      assert BlankPictographs(s)[1..] == BlankPictographs(s[1..]);
      assert BlankPunctuation(s)[1..] == BlankPunctuation(s[1..]);
    }
  }

  lemma {:induction false} WordCharsCollapse(s: string)
    ensures WordChars(CollapseSpaces(s)) == WordChars(s)
    decreases |s|
  {
    if s != [] {
      ClassesDisjoint(s[0]);
      if IsSpace(s[0]) {
        WordCharsCollapse(TrimStart(s[1..]));
        WordCharsTrimStart(s[1..]);
        assert CollapseSpaces(s)[1..] == CollapseSpaces(TrimStart(s[1..]));
      } else {
        WordCharsCollapse(s[1..]);
        assert CollapseSpaces(s)[1..] == CollapseSpaces(s[1..]);
      }
    }
  }

  /**
   * The key keeps exactly the input's letters and numbers, lower-cased and in
   * their order; everything else only ever becomes a separating space.
   */
  lemma KeyWordChars(input: string)
    ensures WordChars(Normalize(input)) == LowerAll(WordChars(input))
  {
    var lowered := LowerAll(Trim(input));
    var blanked := BlankPunctuation(BlankPictographs(lowered));
    var collapsed := CollapseSpaces(blanked);
    WordCharsTrim(input);
    WordCharsLower(Trim(input));
    WordCharsBlanking(lowered);
    WordCharsBlanking(BlankPictographs(lowered));
    WordCharsCollapse(blanked);
    WordCharsTrim(collapsed);
  }

  /** A key is empty exactly when the input has no letter and no number. */
  lemma EmptyKey(input: string)
    ensures Normalize(input) == [] <==> WordChars(input) == []
  {
    var key := Normalize(input);
    NormalizedIsKey(input);
    KeyWordChars(input);
    if WordChars(input) == [] && key != [] {
      KeyWithoutWordChars(key);
    }
  }

  lemma {:induction false} KeyWithoutWordChars(k: string)
    requires IsKey(k) && k != []
    ensures WordChars(k) != []
  {
    assert k[0] != ' ';
    assert IsWordChar(k[0]);
  }

  lemma {:induction false} CollapseSingleSpaced(s: string)
    requires SingleSpaced(s)
    ensures CollapseSpaces(s) == s
    decreases |s|
  {
    if s != [] {
      if |s| > 1 {
        assert SingleSpaced(s[1..]);
        assert !(IsSpace(s[0]) && IsSpace(s[1]));
      }
      if IsSpace(s[0]) {
        assert TrimStart(s[1..]) == s[1..];
      }
      CollapseSingleSpaced(s[1..]);
    }
  }

  lemma KeyIsFixed(k: string)
    requires IsKey(k)
    ensures LowerAll(k) == k && BlankPictographs(k) == k && BlankPunctuation(k) == k
  {
    forall i | 0 <= i < |k| ensures !IsPictographic(k[i]) && (IsWordChar(k[i]) || IsSpace(k[i])) {
      assert KeyChar(k[i]);
      ClassesDisjoint(k[i]);
    }
    LowerAllChars(k);
    assert forall i :: 0 <= i < |k| ==> LowerAll(k)[i] == k[i];
    BlankPictographsChars(k);
    BlankPunctuationChars(k);
  }

  /** Normalising a key gives the same key: `normalizeKey` is idempotent. */
  lemma Idempotent(input: string)
    ensures Normalize(Normalize(input)) == Normalize(input)
  {
    var k := Normalize(input);
    NormalizedIsKey(input);
    TrimOfTrimmed(k);
    KeyIsFixed(k);
    CollapseSingleSpaced(k);
    calc {
      Normalize(k);
      Trim(CollapseSpaces(BlankPunctuation(BlankPictographs(LowerAll(Trim(k))))));
      Trim(CollapseSpaces(k));
      k;
    }
  }

  /** A missing input, which `input ?? ""` turns into the empty string, has the empty key. */
  lemma ExampleMissing()
    ensures NormalizeNullable(None) == ""
  {
    assert TrimStart("") == "" && TrimEnd("") == "";
  }

}
