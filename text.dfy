/** Text transforms of the engine: the whole-word replicon counter behind
    `count_chro_plas`, the scheme rewrite `change_ftp`, and the ordering of
    Python strings used when the taxonomic menus are sorted. */
module Text {

  // ---------------------------------------------------------------------
  // Whole-word, case-insensitive matching: re.findall(r'\bword\b', s, re.IGNORECASE)
  // ---------------------------------------------------------------------

  /** The word-character class that `\b` tests, restricted to ASCII. */
  predicate IsWordChar(c: char) {
    'a' <= c <= 'z' || 'A' <= c <= 'Z' || '0' <= c <= '9' || c == '_'
  }

  /** ASCII lower-casing, the case folding IGNORECASE applies to the letters of the searched words. */
  function LowerAscii(c: char): char {
    if 'A' <= c <= 'Z' then (c as int + 32) as char else c
  }

  /** The searched words ("chromosome", "plasmid"): non-empty and made of lower-case ASCII letters. */
  predicate IsPlainWord(w: string) {
    |w| > 0 && forall k :: 0 <= k < |w| ==> 'a' <= w[k] <= 'z'
  }

  /** `s` begins with `w`, ignoring ASCII case: each character of `w` equals the
      lower-cased character of `s` at its position. */
  predicate StartsWithIgnoringCase(s: string, w: string) {
    |w| <= |s| && forall k :: 0 <= k < |w| ==> LowerAscii(s[k]) == w[k]
  }

  /** The count `len(re.findall(r'\bw\b', s, flags=re.IGNORECASE))`: the regex engine
      scans left to right; a match consumes the word and the scan resumes after it,
      otherwise it moves one character on. `prevWord` tells whether the character just
      before `s` is a word character (the look-behind of the leading `\b`). */
  function FindAll(prevWord: bool, s: string, w: string): nat
    requires IsPlainWord(w)
    decreases |s|
  {
    if s == [] then 0
    else if !prevWord && StartsWithIgnoringCase(s, w) && (|s| == |w| || !IsWordChar(s[|w|])) then
      1 + FindAll(true, s[|w|..], w)
    else
      FindAll(IsWordChar(s[0]), s[1..], w)
  }

  /** Number of whole-word, case-insensitive occurrences of `w` in `s`, as the
      replicon counter computes it. */
  function CountWord(s: string, w: string): nat
    requires IsPlainWord(w)
  {
    FindAll(false, s, w)
  }

  /** Reference definition: `w` occurs at index `i` of `s`, ignoring case. */
  predicate MatchesAt(s: string, w: string, i: nat) {
    i + |w| <= |s| && forall k :: 0 <= k < |w| ==> LowerAscii(s[i + k]) == w[k]
  }

  /** Reference definition: a whole-word occurrence at `i` (word boundary on both sides). */
  predicate WholeWordAt(s: string, w: string, i: nat) {
    MatchesAt(s, w, i)
    && (i == 0 || !IsWordChar(s[i - 1]))
    && (i + |w| == |s| || !IsWordChar(s[i + |w|]))
  }

  /** Reference definition: the number of indices `j >= i` holding a whole-word occurrence. */
  function Occurrences(s: string, w: string, i: nat): nat
    requires i <= |s|
    decreases |s| - i
  {
    if i == |s| then 0 else (if WholeWordAt(s, w, i) then 1 else 0) + Occurrences(s, w, i + 1)
  }

  lemma LowerIsLetter(c: char, l: char)
    requires 'a' <= l <= 'z' && LowerAscii(c) == l
    ensures IsWordChar(c)
  {
  }

  lemma StartsWithIgnoringCaseAt(s: string, w: string, i: nat)
    requires i <= |s|
    ensures StartsWithIgnoringCase(s[i..], w) <==> MatchesAt(s, w, i)
  {
    if |w| <= |s[i..]| {
      assert forall k :: 0 <= k < |w| ==> s[i..][k] == s[i + k];
    }
  }

  /** Two whole-word occurrences never overlap, nor even touch: the later one
      starts strictly after the earlier one ends. */
  lemma WholeWordsAreSeparated(s: string, w: string, i: nat, j: nat)
    requires IsPlainWord(w)
    requires WholeWordAt(s, w, i) && WholeWordAt(s, w, j) && i < j
    ensures j > i + |w|
  {
    if j <= i + |w| {
      assert LowerAscii(s[i + (j - 1 - i)]) == w[j - 1 - i];
      LowerIsLetter(s[j - 1], w[j - 1 - i]);
    }
  }

  lemma {:induction false} NoOccurrencesBetween(s: string, w: string, a: nat, b: nat)
    requires a <= b <= |s|
    requires forall j :: a <= j < b ==> !WholeWordAt(s, w, j)
    ensures Occurrences(s, w, a) == Occurrences(s, w, b)
    decreases b - a
  {
    if a < b {
      NoOccurrencesBetween(s, w, a + 1, b);
    }
  }

  /** After a whole-word occurrence the scan resumes past the word: it ends in a
      word character, and no occurrence starts inside it. */
  lemma MatchSkipsWord(s: string, w: string, i: nat)
    requires IsPlainWord(w) && WholeWordAt(s, w, i)
    ensures IsWordChar(s[i + |w| - 1])
    ensures Occurrences(s, w, i + 1) == Occurrences(s, w, i + |w|)
  {
    var e := i + |w|;
    assert LowerAscii(s[i + (|w| - 1)]) == w[|w| - 1];
    LowerIsLetter(s[e - 1], w[|w| - 1]);
    forall j | i + 1 <= j < e ensures !WholeWordAt(s, w, j) {
      if WholeWordAt(s, w, j) {
        WholeWordsAreSeparated(s, w, i, j);
      }
    }
    NoOccurrencesBetween(s, w, i + 1, e);
  }

  /** The scan's test at position `i` is the whole-word test. */
  lemma ScanHitIsWholeWord(s: string, w: string, i: nat)
    requires i < |s|
    ensures (!(i > 0 && IsWordChar(s[i - 1])) && StartsWithIgnoringCase(s[i..], w)
             && (|s[i..]| == |w| || !IsWordChar(s[i..][|w|])))
        <==> WholeWordAt(s, w, i)
  {
    StartsWithIgnoringCaseAt(s, w, i);
  }

  /** The scan resumed at position `i` of `s`, with the look-behind at `i`. */
  function Scan(s: string, w: string, i: nat): nat
    requires IsPlainWord(w) && i <= |s|
  {
    FindAll(i > 0 && IsWordChar(s[i - 1]), s[i..], w)
  }

  /** Where a whole word starts, the scan counts it and resumes after it: if the
      count from there on is right, so is the count from the word's start. */
  lemma FindAllHit(s: string, w: string, i: nat)
    requires IsPlainWord(w) && i < |s| && WholeWordAt(s, w, i)
    requires Scan(s, w, i + |w|) == Occurrences(s, w, i + |w|)
    ensures Scan(s, w, i) == Occurrences(s, w, i)
  {
    ScanHitIsWholeWord(s, w, i);
    MatchSkipsWord(s, w, i);
    assert s[i..][|w|..] == s[i + |w|..];
  }

  /** Elsewhere the scan moves one character on: if the count from the next
      position is right, so is the count from this one. */
  lemma FindAllMiss(s: string, w: string, i: nat)
    requires IsPlainWord(w) && i < |s| && !WholeWordAt(s, w, i)
    requires Scan(s, w, i + 1) == Occurrences(s, w, i + 1)
    ensures Scan(s, w, i) == Occurrences(s, w, i)
  {
    ScanHitIsWholeWord(s, w, i);
    assert s[i..][1..] == s[i + 1..];
  }

  lemma {:induction false} FindAllCountsOccurrences(s: string, w: string, i: nat)
    requires IsPlainWord(w) && i <= |s|
    ensures Scan(s, w, i) == Occurrences(s, w, i)
    decreases |s| - i
  {
    if i < |s| {
      if WholeWordAt(s, w, i) {
        FindAllCountsOccurrences(s, w, i + |w|);
        FindAllHit(s, w, i);
      } else {
        FindAllCountsOccurrences(s, w, i + 1);
        FindAllMiss(s, w, i);
      }
    }
  }

  /** The regex scan finds every whole-word occurrence of the word and nothing
      else: `CountWord` equals the number of positions where the word stands
      as a whole word, whatever the case of its letters. */
  lemma CountWordIsOccurrences(s: string, w: string)
    requires IsPlainWord(w)
    ensures CountWord(s, w) == Occurrences(s, w, 0)
  {
    FindAllCountsOccurrences(s, w, 0);
    assert s[0..] == s;
  }

  /** A non-word character splits the scan: matches cannot straddle it. */
  lemma {:induction false} FindAllSplit(prevWord: bool, a: string, b: string, w: string)
    requires IsPlainWord(w) && |a| > 0 && !IsWordChar(a[|a| - 1])
    ensures FindAll(prevWord, a + b, w) == FindAll(prevWord, a, w) + FindAll(false, b, w)
    decreases |a|
  {
    var s := a + b;
    if StartsWithIgnoringCase(s, w) && |w| >= |a| {
      StartsWithIgnoringCaseAt(s, w, 0);
      assert s[0..] == s;
      assert LowerAscii(s[0 + (|a| - 1)]) == w[|a| - 1];
      LowerIsLetter(s[|a| - 1], w[|a| - 1]);
      assert false;
    }
    var hitAB := !prevWord && StartsWithIgnoringCase(s, w) && (|s| == |w| || !IsWordChar(s[|w|]));
    if StartsWithIgnoringCase(s, w) {
      StartsWithIgnoringCaseAt(s, w, 0);
      StartsWithIgnoringCaseAt(a, w, 0);
      assert s[0..] == s && a[0..] == a;
      assert forall k :: 0 <= k < |a| ==> s[k] == a[k];
    }
    if StartsWithIgnoringCase(a, w) {
      StartsWithIgnoringCaseAt(s, w, 0);
      StartsWithIgnoringCaseAt(a, w, 0);
      assert s[0..] == s && a[0..] == a;
      assert forall k :: 0 <= k < |a| ==> s[k] == a[k];
    }
    var hitA := !prevWord && StartsWithIgnoringCase(a, w) && (|a| == |w| || !IsWordChar(a[|w|]));
    assert hitA == hitAB;
    if hitAB {
      assert s[|w|..] == a[|w|..] + b;
      FindAllSplit(true, a[|w|..], b, w);
    } else if |a| == 1 {
      assert s[1..] == b;
    } else {
      assert s[1..] == a[1..] + b;
      FindAllSplit(IsWordChar(a[0]), a[1..], b, w);
    }
  }

  /** A string that never shows the word's first letter (in either case) holds no occurrence. */
  lemma {:induction false} NoFirstLetterNoMatch(prevWord: bool, s: string, w: string)
    requires IsPlainWord(w)
    requires forall k :: 0 <= k < |s| ==> LowerAscii(s[k]) != w[0]
    ensures FindAll(prevWord, s, w) == 0
    decreases |s|
  {
    if s != [] {
      NoFirstLetterNoMatch(IsWordChar(s[0]), s[1..], w);
    }
  }

  /** A string shorter than the word holds no occurrence of it. */
  lemma {:induction false} ShortHasNoMatch(prevWord: bool, s: string, w: string)
    requires IsPlainWord(w) && |s| < |w|
    ensures FindAll(prevWord, s, w) == 0
    decreases |s|
  {
    if s != [] {
      ShortHasNoMatch(IsWordChar(s[0]), s[1..], w);
    }
  }

  /** The word followed by a tail that starts with a non-word character and holds
      no further occurrence (it is shorter than the word, or never shows the word's
      first letter) occurs exactly once. */
  lemma WordThenTail(w: string, t: string)
    requires IsPlainWord(w) && 0 < |t| && !IsWordChar(t[0])
    requires |t| < |w| || forall k :: 0 <= k < |t| ==> LowerAscii(t[k]) != w[0]
    ensures FindAll(false, w + t, w) == 1
  {
    var s := w + t;
    StartsWithIgnoringCaseAt(s, w, 0);
    assert s[|w|..] == t;
    if |t| < |w| {
      ShortHasNoMatch(true, t, w);
    } else {
      NoFirstLetterNoMatch(true, t, w);
    }
  }

  /** "chromosome 1; plasmid pA, plasmid pB" holds one whole-word "chromosome"... */
  lemma MixedRepliconsChromosomes()
    ensures CountWord("chromosome 1; plasmid pA, plasmid pB", "chromosome") == 1
  {
    assert "chromosome 1; plasmid pA, plasmid pB" == "chromosome 1; " + "plasmid pA, " + "plasmid pB";
    CountThreePieces("chromosome 1; ", "plasmid pA, ", "plasmid pB", "chromosome");
    ChromosomeHead();
    ListedPlasmidHasNoChromosome();
    LastPlasmidHasNoChromosome();
  }

  lemma ChromosomeHead()
    ensures CountWord("chromosome 1; ", "chromosome") == 1
  {
    assert "chromosome 1; " == "chromosome" + " 1; ";
    WordThenTail("chromosome", " 1; ");
  }

  lemma ListedPlasmidHasNoChromosome()
    ensures CountWord("plasmid pA, ", "chromosome") == 0
  {
    NoFirstLetterNoMatch(false, "plasmid pA, ", "chromosome");
  }

  lemma LastPlasmidHasNoChromosome()
    ensures CountWord("plasmid pB", "chromosome") == 0
  {
    NoFirstLetterNoMatch(false, "plasmid pB", "chromosome");
  }

  /** Counting adds up over three pieces when the first two end in a non-word character. */
  lemma CountThreePieces(p1: string, p2: string, p3: string, w: string)
    requires IsPlainWord(w) && |p1| > 0 && |p2| > 0
    requires !IsWordChar(p1[|p1| - 1]) && !IsWordChar(p2[|p2| - 1])
    ensures CountWord(p1 + p2 + p3, w) == CountWord(p1, w) + CountWord(p2, w) + CountWord(p3, w)
  {
    assert p1 + p2 + p3 == p1 + (p2 + p3);
    FindAllSplit(false, p1, p2 + p3, w);
    FindAllSplit(false, p2, p3, w);
  }

  lemma ChromosomeHeadHasNoPlasmid()
    ensures CountWord("chromosome 1; ", "plasmid") == 0
  {
    NoFirstLetterNoMatch(false, "chromosome 1; ", "plasmid");
  }

  lemma ListedPlasmid()
    ensures CountWord("plasmid pA, ", "plasmid") == 1
  {
    assert "plasmid pA, " == "plasmid" + " pA, ";
    WordThenTail("plasmid", " pA, ");
  }

  lemma LastPlasmid()
    ensures CountWord("plasmid pB", "plasmid") == 1
  {
    assert "plasmid pB" == "plasmid" + " pB";
    WordThenTail("plasmid", " pB");
  }

  /** ... and two whole-word "plasmid"s. */
  lemma MixedRepliconsPlasmids()
    ensures CountWord("chromosome 1; plasmid pA, plasmid pB", "plasmid") == 2
  {
    assert "chromosome 1; plasmid pA, plasmid pB" == "chromosome 1; " + "plasmid pA, " + "plasmid pB";
    CountThreePieces("chromosome 1; ", "plasmid pA, ", "plasmid pB", "plasmid");
    ChromosomeHeadHasNoPlasmid();
    ListedPlasmid();
    LastPlasmid();
  }

  /** Inside a word (the previous character is a word character and so is every
      character of `s`) no occurrence can start. */
  lemma {:induction false} InsideWordNoMatch(s: string, w: string)
    requires IsPlainWord(w)
    requires forall k :: 0 <= k < |s| ==> IsWordChar(s[k])
    ensures FindAll(true, s, w) == 0
    decreases |s|
  {
    if s != [] {
      InsideWordNoMatch(s[1..], w);
    }
  }

  /** Matching ignores case: "Plasmid" is one plasmid. */
  lemma MixedCasePlasmid()
    ensures CountWord("Plasmid", "plasmid") == 1
  {
    var s, w := "Plasmid", "plasmid";
    assert MatchesAt(s, w, 0);
    StartsWithIgnoringCaseAt(s, w, 0);
    assert s[0..] == s;
  }

  /** A plural is not a whole-word match. */
  lemma PluralIsNoMatch()
    ensures CountWord("chromosomes", "chromosome") == 0
  {
    var s, w := "chromosomes", "chromosome";
    assert IsWordChar(s[|w|]) && IsWordChar(s[0]);
    InsideWordNoMatch(s[1..], w);
  }

  /** A word embedded in a longer word is not a whole-word match. */
  lemma EmbeddedWordIsNoMatch()
    ensures CountWord("minichromosome", "chromosome") == 0
  {
    var s, w := "minichromosome", "chromosome";
    assert LowerAscii(s[0]) != w[0] && IsWordChar(s[0]);
    InsideWordNoMatch(s[1..], w);
  }

  /** '_' is a word character, so "plasmid_1" holds no whole-word "plasmid". */
  lemma UnderscoreIsNoBoundary()
    ensures CountWord("plasmid_1", "plasmid") == 0
  {
    var s, w := "plasmid_1", "plasmid";
    assert IsWordChar(s[|w|]) && IsWordChar(s[0]);
    InsideWordNoMatch(s[1..], w);
  }

  // ---------------------------------------------------------------------
  // change_ftp
  // ---------------------------------------------------------------------

  /** `'https' + ftp_path[3:]`; Python slicing yields "" when the path is shorter than 3. */
  function ChangeFtp(path: string): string {
    "https" + (if |path| >= 3 then path[3..] else "")
  }

  /** The rewrite replaces exactly the leading three characters: putting "ftp"
      back in front of what follows "https" gives the original path. */
  lemma ChangeFtpRestores(path: string)
    requires |path| >= 3 && path[..3] == "ftp"
    ensures |ChangeFtp(path)| == |path| + 2
    ensures ChangeFtp(path)[..5] == "https"
    ensures "ftp" + ChangeFtp(path)[5..] == path
  {
    assert path == path[..3] + path[3..];
  }

  lemma ChangeFtpExample()
    ensures ChangeFtp("ftp://ncbi/a") == "https://ncbi/a"
  {
  }

  // ---------------------------------------------------------------------
  // Python's ordering of str values (code point by code point)
  // ---------------------------------------------------------------------

  /** `a < b` on Python strings: lexicographic by code point, a proper prefix first. */
  predicate StrLess(a: string, b: string)
    decreases |a|
  {
    |b| > 0 && (|a| == 0 || a[0] < b[0] || (a[0] == b[0] && StrLess(a[1..], b[1..])))
  }

  lemma {:induction false} StrLessIrreflexive(a: string)
    ensures !StrLess(a, a)
    decreases |a|
  {
    if |a| > 0 {
      StrLessIrreflexive(a[1..]);
    }
  }

  lemma {:induction false} StrLessTransitive(a: string, b: string, c: string)
    requires StrLess(a, b) && StrLess(b, c)
    ensures StrLess(a, c)
    decreases |a|
  {
    if |a| > 0 && a[0] == b[0] && b[0] == c[0] {
      StrLessTransitive(a[1..], b[1..], c[1..]);
    }
  }

  lemma {:induction false} StrLessTotal(a: string, b: string)
    requires a != b
    ensures StrLess(a, b) || StrLess(b, a)
    decreases |a|
  {
    if |a| > 0 && |b| > 0 && a[0] == b[0] {
      assert a == [a[0]] + a[1..] && b == [b[0]] + b[1..];
      StrLessTotal(a[1..], b[1..]);
    }
  }

  /** Strictly ascending: sorted and without repetition. */
  predicate StrictlyAscending(s: seq<string>) {
    forall i, j :: 0 <= i < j < |s| ==> StrLess(s[i], s[j])
  }

  /** Inserts `x` into a strictly ascending list unless it is already there. */
  function InsertSorted(s: seq<string>, x: string): (r: seq<string>)
    requires StrictlyAscending(s)
    ensures StrictlyAscending(r)
    ensures forall y :: y in r <==> y in s || y == x
    decreases |s|
  {
    if s == [] then [x]
    else if x == s[0] then s
    else if StrLess(x, s[0]) then
      assert forall j :: 0 <= j < |s| ==> StrLess(x, s[j]) by {
        forall j | 0 <= j < |s| ensures StrLess(x, s[j]) {
          if j > 0 { StrLessTransitive(x, s[0], s[j]); }
        }
      }
      [x] + s
    else
      StrLessTotal(x, s[0]);
      var rest := InsertSorted(s[1..], x);
      assert forall y :: y in rest ==> StrLess(s[0], y) by {
        forall y | y in rest ensures StrLess(s[0], y) {
          if y != x {
            var j :| 0 <= j < |s[1..]| && s[1..][j] == y;
            assert s[1 + j] == y;
          }
        }
      }
      assert s == [s[0]] + s[1..];
      [s[0]] + rest
  }

  /** The menu built by `list(set(values))`, `filter(None, ...)` and `.sort()`:
      the distinct non-empty values in strictly ascending order. */
  function SortedDistinct(values: seq<string>): (r: seq<string>)
    ensures StrictlyAscending(r)
    ensures forall y :: y in r <==> y in values && y != ""
    decreases |values|
  {
    if values == [] then []
    else
      var init := values[..|values| - 1];
      var last := values[|values| - 1];
      assert values == init + [last];
      var rest := SortedDistinct(init);
      if last == "" then rest else InsertSorted(rest, last)
  }

  lemma SameElementsBothEmpty(a: seq<string>, b: seq<string>)
    requires forall y :: y in a <==> y in b
    ensures a == [] <==> b == []
  {
    if a != [] { assert a[0] in a; }
    if b != [] { assert b[0] in b; }
  }

  lemma AscendingHeadsAgree(a: seq<string>, b: seq<string>)
    requires StrictlyAscending(a) && StrictlyAscending(b) && a != [] && b != []
    requires forall y :: y in a <==> y in b
    ensures a[0] == b[0]
  {
    assert a[0] in a && b[0] in b;
    var j :| 0 <= j < |a| && a[j] == b[0];
    var i :| 0 <= i < |b| && b[i] == a[0];
    StrLessIrreflexive(a[0]);
    if j > 0 && i > 0 {
      StrLessTransitive(a[0], b[0], a[0]);
    }
  }

  /** A strictly ascending list is determined by its elements, so the menu does
      not depend on the (arbitrary) iteration order of the Python set. */
  lemma {:induction false} AscendingIsUnique(a: seq<string>, b: seq<string>)
    requires StrictlyAscending(a) && StrictlyAscending(b)
    requires forall y :: y in a <==> y in b
    ensures a == b
    decreases |a|
  {
    SameElementsBothEmpty(a, b);
    if a != [] {
      AscendingHeadsAgree(a, b);
      forall y ensures y in a[1..] <==> y in b[1..] {
        if y in a[1..] {
          var k :| 0 <= k < |a[1..]| && a[1..][k] == y;
          StrLessIrreflexive(y);
          assert StrLess(a[0], y);
          assert y != b[0];
          assert y in b;
        }
        if y in b[1..] {
          var k :| 0 <= k < |b[1..]| && b[1..][k] == y;
          StrLessIrreflexive(y);
          assert StrLess(b[0], y);
          assert y != a[0];
          assert y in a;
        }
      }
      AscendingIsUnique(a[1..], b[1..]);
      assert a == [a[0]] + a[1..] && b == [b[0]] + b[1..];
    }
  }
}
