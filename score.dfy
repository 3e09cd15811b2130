/**
 * The score parser: `re.search(r"Overall Score:\s*(\d{1,3})", analysis)`
 * followed by `int(match.group(1))`, written out as a hand-made matcher.
 *
 * The regular expression's meaning is stated declaratively by `PatternAt`
 * (some way of matching at a position) and `PreferredAt` (the way Python's
 * backtracking tries first: as many spaces, then as many digits, as
 * possible); `re.search` returns the leftmost position that matches at all.
 * `MatchAt` and `ParseScore` are the greedy scan, and the lemmas below prove
 * that the scan computes exactly that.
 */
module ScoreParser {
  import opened Wrappers
  import opened Ascii

  /** The literal that introduces the score; matched case-sensitively. */
  const Marker: string := "Overall Score:"

  /** `\d{1,3}`: the digit group is one to three digits long. */
  const MaxDigits: nat := 3

  function DigitValue(c: char): (v: nat)
    requires IsDigit(c)
    ensures v <= 9
  {
    (c as int) - ('0' as int)
  }

  function Pow10(n: nat): (r: nat)
    ensures r >= 1
  {
    if n == 0 then 1 else 10 * Pow10(n - 1)
  }

  predicate AllDigits(ds: string) {
    forall i :: 0 <= i < |ds| ==> IsDigit(ds[i])
  }

  /** Python's `int()` on a string of ASCII digits (leading zeros allowed). */
  function DecimalValue(ds: string): (v: nat)
    requires AllDigits(ds)
    ensures v < Pow10(|ds|)
  {
    if ds == [] then 0
    else
      var init := ds[..|ds| - 1];
      assert AllDigits(init) by {
        forall i | 0 <= i < |init| ensures IsDigit(init[i]) { assert init[i] == ds[i]; }
      }
      var v := DecimalValue(init) * 10 + DigitValue(ds[|ds| - 1]);
      assert v <= (Pow10(|init|) - 1) * 10 + 9;
      v
  }

  /** Leading zeros do not change the value: `int("007") == 7`. */
  lemma {:induction false} LeadingZeroIgnored(ds: string)
    requires AllDigits(ds)
    ensures AllDigits(['0'] + ds) && DecimalValue(['0'] + ds) == DecimalValue(ds)
    decreases |ds|
  {
    var zds := ['0'] + ds;
    if ds != [] {
      var init := ds[..|ds| - 1];
      assert zds[..|zds| - 1] == ['0'] + init;
      LeadingZeroIgnored(init);
    }
  }

  /** `\s*` at position `j`: the end of the longest run of whitespace. */
  function SkipSpaces(s: string, j: nat): (k: nat)
    requires j <= |s|
    ensures j <= k <= |s|
    ensures forall m :: j <= m < k ==> IsSpace(s[m])
    ensures k == |s| || !IsSpace(s[k])
    decreases |s| - j
  {
    if j < |s| && IsSpace(s[j]) then SkipSpaces(s, j + 1) else j
  }

  /** `\d{1,limit}` read greedily at position `j`: the end of the longest run
      of at most `limit` digits (equal to `j` when there is no digit). */
  function TakeDigits(s: string, j: nat, limit: nat): (k: nat)
    requires j <= |s|
    ensures j <= k <= |s| && k <= j + limit
    ensures forall m :: j <= m < k ==> IsDigit(s[m])
    ensures k == j + limit || k == |s| || !IsDigit(s[k])
    decreases limit
  {
    if limit > 0 && j < |s| && IsDigit(s[j]) then TakeDigits(s, j + 1, limit - 1) else j
  }

  lemma DigitSlice(s: string, a: nat, b: nat)
    requires a <= b <= |s|
    requires forall m :: a <= m < b ==> IsDigit(s[m])
    ensures AllDigits(s[a..b])
  {
  }

  /** The whole pattern matches at position `i` with `w` whitespace characters
      after the colon and a digit group of length `d`. */
  ghost predicate PatternAt(s: string, i: nat, w: nat, d: nat) {
    var j := i + |Marker| + w;
    j + d <= |s| && s[i..i + |Marker|] == Marker
    && (forall m :: i + |Marker| <= m < j ==> IsSpace(s[m]))
    && 1 <= d <= MaxDigits
    && (forall m :: j <= m < j + d ==> IsDigit(s[m]))
  }

  /** The match Python reports at position `i`: `\s*` and `\d{1,3}` are both
      greedy, so the first success in backtracking order has the most
      whitespace, then the most digits. */
  ghost predicate PreferredAt(s: string, i: nat, w: nat, d: nat) {
    PatternAt(s, i, w, d)
    && forall w': nat, d': nat :: PatternAt(s, i, w', d') ==> w' < w || (w' == w && d' <= d)
  }

  /** The pattern matches at no position before `i`. */
  ghost predicate NoMatchBefore(s: string, i: nat) {
    forall i': nat, w': nat, d': nat :: i' < i ==> !PatternAt(s, i', w', d')
  }

  /** The integer of the digit group of a match. */
  ghost function GroupValue(s: string, i: nat, w: nat, d: nat): (v: nat)
    requires PatternAt(s, i, w, d)
  {
    var j := i + |Marker| + w;
    DigitSlice(s, j, j + d);
    DecimalValue(s[j..j + d])
  }

  /** The pattern anchored at position `i`, matched greedily. */
  function MatchAt(s: string, i: nat): (r: Option<nat>)
    ensures r.Some? ==> r.value < Pow10(MaxDigits)
  {
    if i + |Marker| <= |s| && s[i..i + |Marker|] == Marker then
      var j := SkipSpaces(s, i + |Marker|);
      var k := TakeDigits(s, j, MaxDigits);
      if j < k then
        DigitSlice(s, j, k);
        Some(DecimalValue(s[j..k]))
      else None
    else None
  }

  /** Any match at `i` has exactly the whitespace run the greedy scan skips. */
  lemma SpacesOfPattern(s: string, i: nat, w: nat, d: nat)
    requires PatternAt(s, i, w, d)
    ensures SkipSpaces(s, i + |Marker|) == i + |Marker| + w
  {
    var j := i + |Marker| + w;
    var k := SkipSpaces(s, i + |Marker|);
    DigitIsNotSpace(s[j]);
  }

  /** When some match exists at `i`, the greedy scan finds the preferred one. */
  lemma MatchAtIsPreferred(s: string, i: nat, w: nat, d: nat)
    requires PreferredAt(s, i, w, d)
    ensures MatchAt(s, i) == Some(GroupValue(s, i, w, d))
  {
    var j := i + |Marker| + w;
    SpacesOfPattern(s, i, w, d);
    var k := TakeDigits(s, j, MaxDigits);
    assert PatternAt(s, i, w, k - j);
    assert k == j + d;
  }

  /** The greedy scan at `i` fails exactly when the pattern cannot match at `i`. */
  lemma MatchAtNoneIff(s: string, i: nat)
    ensures MatchAt(s, i).None? <==> forall w: nat, d: nat :: !PatternAt(s, i, w, d)
  {
    if MatchAt(s, i).Some? {
      var j := SkipSpaces(s, i + |Marker|);
      var k := TakeDigits(s, j, MaxDigits);
      assert PatternAt(s, i, j - i - |Marker|, k - j);
    } else {
      forall w: nat, d: nat | PatternAt(s, i, w, d) ensures false {
        SpacesOfPattern(s, i, w, d);
      }
    }
  }

  /** `re.search`'s outer loop: the result at the first of the positions
      `i`, `i + 1`, ..., `n - 1` that gives one. */
  function FirstFound(f: nat -> Option<nat>, i: nat, n: nat): (r: Option<nat>)
    decreases n - i
  {
    if n <= i then None
    else if f(i).Some? then f(i)
    else FirstFound(f, i + 1, n)
  }

  lemma {:induction false} FirstFoundIsFound(f: nat -> Option<nat>, i: nat, n: nat)
    ensures FirstFound(f, i, n).Some? ==> exists k :: i <= k < n && f(k) == FirstFound(f, i, n)
    decreases n - i
  {
    if i < n && f(i).None? {
      FirstFoundIsFound(f, i + 1, n);
    }
  }

  lemma {:induction false} FirstFoundNoneIff(f: nat -> Option<nat>, i: nat, n: nat)
    ensures FirstFound(f, i, n).None? <==> forall j :: i <= j < n ==> f(j).None?
    decreases n - i
  {
    if i < n {
      FirstFoundNoneIff(f, i + 1, n);
    }
  }

  lemma {:induction false} FirstFoundIsFirst(f: nat -> Option<nat>, i: nat, k: nat, n: nat)
    requires i <= k < n && f(k).Some?
    requires forall j :: i <= j < k ==> f(j).None?
    ensures FirstFound(f, i, n) == f(k)
    decreases k - i
  {
    if i < k {
      FirstFoundIsFirst(f, i + 1, k, n);
    }
  }

  /** The score in `analysis`, if the pattern occurs there. */
  function ParseScore(analysis: string): (r: Option<nat>)
    ensures r.Some? ==> r.value <= 999
  {
    var f := (j: nat) => MatchAt(analysis, j);
    FirstFoundIsFound(f, 0, |analysis|);
    FirstFound(f, 0, |analysis|)
  }

  /** No score is found exactly when the pattern matches nowhere in the text. */
  lemma ParseScoreNoneIff(analysis: string)
    ensures ParseScore(analysis).None? <==> forall i: nat, w: nat, d: nat :: !PatternAt(analysis, i, w, d)
  {
    var f := (j: nat) => MatchAt(analysis, j);
    FirstFoundNoneIff(f, 0, |analysis|);
    if ParseScore(analysis).None? {
      forall i: nat, w: nat, d: nat ensures !PatternAt(analysis, i, w, d) {
        if i < |analysis| {
          assert f(i).None?;
          MatchAtNoneIff(analysis, i);
        }
      }
    } else {
      var k :| 0 <= k < |analysis| && f(k).Some?;
      MatchAtNoneIff(analysis, k);
    }
  }

  /** The score is the digit group of the leftmost match, read with the
      preferred (greedy) split; earlier occurrences of the marker that are not
      followed by digits are skipped. */
  lemma ParseScoreIsLeftmost(analysis: string, i: nat, w: nat, d: nat)
    requires PreferredAt(analysis, i, w, d)
    requires NoMatchBefore(analysis, i)
    ensures ParseScore(analysis) == Some(GroupValue(analysis, i, w, d))
  {
    MatchAtIsPreferred(analysis, i, w, d);
    forall j | 0 <= j < i ensures MatchAt(analysis, j).None? {
      MatchAtNoneIff(analysis, j);
    }
    FirstFoundIsFirst((j: nat) => MatchAt(analysis, j), 0, i, |analysis|);
  }

  /** A match whose digit group the next character does not extend is the
      preferred one at its position. */
  lemma MaximalPatternIsPreferred(s: string, i: nat, w: nat, d: nat)
    requires PatternAt(s, i, w, d)
    requires d == MaxDigits || i + |Marker| + w + d == |s| || !IsDigit(s[i + |Marker| + w + d])
    ensures PreferredAt(s, i, w, d)
  {
    forall w': nat, d': nat | PatternAt(s, i, w', d') ensures w' < w || (w' == w && d' <= d) {
      SpacesOfPattern(s, i, w', d');
      SpacesOfPattern(s, i, w, d);
    }
  }

  /** A match assembled from its parts: the marker at `i`, the whitespace
      `ws` after it and the digit group `ds` after that. */
  lemma PatternOfParts(s: string, i: nat, ws: string, ds: string)
    requires i + |Marker| + |ws| + |ds| <= |s|
    requires s[i..i + |Marker|] == Marker
    requires s[i + |Marker|..i + |Marker| + |ws|] == ws
    requires s[i + |Marker| + |ws|..i + |Marker| + |ws| + |ds|] == ds
    requires IsBlank(ws)
    requires 1 <= |ds| <= MaxDigits && AllDigits(ds)
    ensures PatternAt(s, i, |ws|, |ds|)
    ensures GroupValue(s, i, |ws|, |ds|) == DecimalValue(ds)
  {
    var j := i + |Marker| + |ws|;
    forall m | i + |Marker| <= m < j ensures IsSpace(s[m]) {
      assert s[m] == ws[m - i - |Marker|];
    }
    forall m | j <= m < j + |ds| ensures IsDigit(s[m]) {
      assert s[m] == ds[m - j];
    }
  }

  /** Where each part of a five-part concatenation lies. */
  lemma SlicesOfConcat(s: string, a: string, b: string, c: string, d: string, e: string)
    requires s == a + b + c + d + e
    ensures s[|a|..|a| + |b|] == b
    ensures s[|a| + |b|..|a| + |b| + |c|] == c
    ensures s[|a| + |b| + |c|..|a| + |b| + |c| + |d|] == d
    ensures |a| + |b| + |c| + |d| < |s| ==> s[|a| + |b| + |c| + |d|] == e[0]
  {
  }

  /** A score is read from the first marker followed by any whitespace (none
      included) and a digit group that the next character does not extend,
      provided no match starts in the text before it. */
  lemma ParseScoreAfterPrefix(s: string, prefix: string, ws: string, ds: string, rest: string)
    requires s == prefix + Marker + ws + ds + rest
    requires NoMatchBefore(s, |prefix|)
    requires IsBlank(ws)
    requires 1 <= |ds| <= MaxDigits && AllDigits(ds)
    requires |ds| == MaxDigits || rest == [] || !IsDigit(rest[0])
    ensures ParseScore(s) == Some(DecimalValue(ds))
  {
    var i := |prefix|;
    SlicesOfConcat(s, prefix, Marker, ws, ds, rest);
    PatternOfParts(s, i, ws, ds);
    MaximalPatternIsPreferred(s, i, |ws|, |ds|);
    ParseScoreIsLeftmost(s, i, |ws|, |ds|);
  }

  /** The text starts with the marker, then any whitespace, then the digits. */
  lemma ParseScoreAfterMarker(s: string, ws: string, ds: string, rest: string)
    requires s == Marker + ws + ds + rest
    requires IsBlank(ws)
    requires 1 <= |ds| <= MaxDigits && AllDigits(ds)
    requires |ds| == MaxDigits || rest == [] || !IsDigit(rest[0])
    ensures ParseScore(s) == Some(DecimalValue(ds))
  {
    assert s == [] + Marker + ws + ds + rest;
    ParseScoreAfterPrefix(s, [], ws, ds, rest);
  }

  /** The score used by the web service: 0 when the pattern does not occur. */
  function ScoreOrZero(analysis: string): (score: nat)
    ensures score <= 999
    ensures ParseScore(analysis).None? ==> score == 0
    ensures ParseScore(analysis).Some? ==> score == ParseScore(analysis).value
  {
    ParseScore(analysis).GetOr(0)
  }

  // Worked examples of the pattern's edge cases.

  /** No clamping: a score above 100 is reported as written. */
  lemma ScoreAboveHundredKept(s: string)
    requires s == Marker + " 105/100"
    ensures ParseScore(s) == Some(105)
  {
    assert s == Marker + " " + "105" + "/100";
    ParseScoreAfterMarker(s, " ", "105", "/100");
    assert DecimalValue("1") == 1 by { assert "1"[..0] == ""; }
    assert DecimalValue("10") == 10 by { assert "10"[..1] == "1"; }
    assert DecimalValue("105") == 105 by { assert "105"[..2] == "10"; }
  }

  /** Only three digits are read: `1000` gives 100. */
  lemma FourthDigitDropped(s: string)
    requires s == Marker + " 1000"
    ensures ParseScore(s) == Some(100)
  {
    assert s == Marker + " " + "100" + "0";
    ParseScoreAfterMarker(s, " ", "100", "0");
    assert DecimalValue("1") == 1 by { assert "1"[..0] == ""; }
    assert DecimalValue("10") == 10 by { assert "10"[..1] == "1"; }
    assert DecimalValue("100") == 100 by { assert "100"[..2] == "10"; }
  }

  /** No whitespace is needed after the colon. */
  lemma WhitespaceOptional(s: string)
    requires s == Marker + "73"
    ensures ParseScore(s) == Some(73)
  {
    assert s == Marker + "" + "73" + "";
    ParseScoreAfterMarker(s, "", "73", "");
    assert DecimalValue("7") == 7 by { assert "7"[..0] == ""; }
    assert DecimalValue("73") == 73 by { assert "73"[..1] == "7"; }
  }

  /** Line breaks and tabs count as whitespace. */
  lemma LineBreaksAreWhitespace(s: string)
    requires s == Marker + "\n\t 73/100"
    ensures ParseScore(s) == Some(73)
  {
    assert s == Marker + "\n\t " + "73" + "/100";
    ParseScoreAfterMarker(s, "\n\t ", "73", "/100");
    assert DecimalValue("7") == 7 by { assert "7"[..0] == ""; }
    assert DecimalValue("73") == 73 by { assert "73"[..1] == "7"; }
  }

  /** Leading zeros are accepted: `007` gives 7. */
  lemma LeadingZerosAccepted(s: string)
    requires s == Marker + " 007"
    ensures ParseScore(s) == Some(7)
  {
    assert s == Marker + " " + "007" + "";
    ParseScoreAfterMarker(s, " ", "007", "");
    assert DecimalValue("7") == 7 by { assert "7"[..0] == ""; }
    LeadingZeroIgnored("7");
    LeadingZeroIgnored("07");
  }

  /** Every match starts with the marker's first letter, and its digit group
      begins where the whitespace run after the colon ends. */
  lemma PatternShape(s: string, i: nat, w: nat, d: nat)
    requires PatternAt(s, i, w, d)
    ensures s[i] == 'O'
    ensures SkipSpaces(s, i + |Marker|) == i + |Marker| + w < |s|
    ensures IsDigit(s[i + |Marker| + w])
  {
    assert s[i] == s[i..i + |Marker|][0];
    SpacesOfPattern(s, i, w, d);
  }

  /** A text that starts with a marker not followed by digits, and has no
      other capital O before position `n`, has no match before `n`. */
  lemma NoMatchBeforeNextMarker(s: string, n: nat)
    requires |Marker| <= |s|
    requires SkipSpaces(s, |Marker|) == |s| || !IsDigit(s[SkipSpaces(s, |Marker|)])
    requires n <= |s| && forall k :: 1 <= k < n ==> s[k] != 'O'
    ensures NoMatchBefore(s, n)
  {
    forall i: nat, w: nat, d: nat | i < n ensures !PatternAt(s, i, w, d) {
      if PatternAt(s, i, w, d) {
        PatternShape(s, i, w, d);
      }
    }
  }

  /** `\s*` stops at the first character after a whitespace run `ws`. */
  lemma SkipSpacesOver(s: string, j: nat, ws: string)
    requires j + |ws| <= |s| && s[j..j + |ws|] == ws && IsBlank(ws)
    requires j + |ws| == |s| || !IsSpace(s[j + |ws|])
    ensures SkipSpaces(s, j) == j + |ws|
  {
    forall m | j <= m < j + |ws| ensures IsSpace(s[m]) {
      assert s[m] == ws[m - j];
    }
  }

  /** A marker followed, after any whitespace, by something other than a
      digit is not a match: the search moves on to the next marker. */
  lemma BareMarkerSkipped(s: string, gap: string, note: string, ws: string, ds: string, rest: string)
    requires s == Marker + gap + note + Marker + ws + ds + rest
    requires IsBlank(gap) && 'O' !in note
    requires note == [] || (!IsSpace(note[0]) && !IsDigit(note[0]))
    requires IsBlank(ws)
    requires 1 <= |ds| <= MaxDigits && AllDigits(ds)
    requires |ds| == MaxDigits || rest == [] || !IsDigit(rest[0])
    ensures ParseScore(s) == Some(DecimalValue(ds))
  {
    var prefix := Marker + gap + note;
    MarkerStartsWithItsOnlyO();
    SlicesAroundGap(s, Marker, gap, note, ws, ds, rest, 'O');
    SkipSpacesOver(s, |Marker|, gap);
    NoMatchBeforeNextMarker(s, |prefix|);
    ParseScoreAfterPrefix(s, prefix, ws, ds, rest);
  }

  lemma MarkerStartsWithItsOnlyO()
    ensures |Marker| >= 1 && Marker[0] == 'O' && 'O' !in Marker[1..]
  {
  }

  /** Where the parts around the text between two markers lie; a character
      that occurs in none of them after the first marker's first one occurs
      nowhere before the second marker except at the start. */
  lemma SlicesAroundGap(s: string, m: string, gap: string, note: string, ws: string, ds: string, rest: string, c: char)
    requires |m| >= 1 && s == m + gap + note + m + ws + ds + rest
    requires c !in m[1..] && IsBlank(gap) && !IsSpace(c) && c !in note
    ensures |m| < |s| && s[..|m|] == m
    ensures s[|m|..|m| + |gap|] == gap
    ensures s[|m| + |gap|] == if note == [] then m[0] else note[0]
    ensures forall k :: 1 <= k < |m| + |gap| + |note| ==> s[k] != c
  {
    var t := m[1..] + gap + note;
    assert s[1..|m| + |gap| + |note|] == t;
    forall k | 1 <= k < |m| + |gap| + |note| ensures s[k] != c {
      assert s[k] == t[k - 1];
      if |m| <= k < |m| + |gap| {
        assert s[k] == gap[k - |m|];
      }
    }
  }

  /** An instance: "N/A" after the first marker is passed over. */
  lemma MarkerWithoutDigitsSkipped(s: string)
    requires s == Marker + " N/A, " + Marker + " 80/100"
    ensures ParseScore(s) == Some(80)
  {
    assert s == Marker + " " + "N/A, " + Marker + " " + "80" + "/100";
    BareMarkerSkipped(s, " ", "N/A, ", " ", "80", "/100");
    assert DecimalValue("8") == 8 by { assert "8"[..0] == ""; }
    assert DecimalValue("80") == 80 by { assert "80"[..1] == "8"; }
  }

  /** The marker is case-sensitive: a lower-case one is not a match. */
  lemma MarkerIsCaseSensitive(s: string)
    requires s == "overall score: 90/100"
    ensures ParseScore(s) == None
  {
    forall i: nat, w: nat, d: nat | PatternAt(s, i, w, d) ensures false {
      PatternShape(s, i, w, d);
    }
    ParseScoreNoneIff(s);
  }
}
