/**
 * String primitives the document server relies on: JavaScript's notion of
 * white space (shared by `String.prototype.trim` and the regular-expression
 * class `\s`), `trim`, ASCII `toLowerCase`, `includes`, `endsWith`, and the
 * two `split` calls the server makes: on the literal separator "\n\n" and on
 * the pattern /\s+/.
 */
module Text {

  /** ECMAScript WhiteSpace and LineTerminator code points: what `trim` strips and `\s` matches. */
  predicate IsSpace(c: char) {
    || c == '\t' || c == '\n' || c == '\U{000B}' || c == '\U{000C}' || c == '\r'
    || c == ' ' || c == '\U{00A0}' || c == '\U{1680}'
    || ('\U{2000}' <= c <= '\U{200A}')
    || c == '\U{2028}' || c == '\U{2029}' || c == '\U{202F}' || c == '\U{205F}'
    || c == '\U{3000}' || c == '\U{FEFF}'
  }

  predicate AllSpace(s: string) {
    forall i :: 0 <= i < |s| ==> IsSpace(s[i])
  }

  predicate NoSpace(s: string) {
    forall i :: 0 <= i < |s| ==> !IsSpace(s[i])
  }

  /** Neither the first nor the last character of `s` is white space. */
  predicate Bordered(s: string) {
    s == [] || (!IsSpace(s[0]) && !IsSpace(s[|s| - 1]))
  }

  // ---------------------------------------------------------------------------
  // trim
  // ---------------------------------------------------------------------------

  /** Length of the run of white space that starts `s`. */
  function LeadingSpaces(s: string): (n: nat)
    ensures n <= |s|
    ensures AllSpace(s[..n])
    ensures n < |s| ==> !IsSpace(s[n])
  {
    if |s| == 0 || !IsSpace(s[0]) then 0 else 1 + LeadingSpaces(s[1..])
  }

  /** Length of the run of white space that ends `s`. */
  function TrailingSpaces(s: string): (n: nat)
    ensures n <= |s|
    ensures AllSpace(s[|s| - n..])
    ensures n < |s| ==> !IsSpace(s[|s| - n - 1])
  {
    if |s| == 0 || !IsSpace(s[|s| - 1]) then 0
    else
      var n := 1 + TrailingSpaces(s[..|s| - 1]);
      assert s[|s| - n..] == s[..|s| - 1][|s| - n..] + [s[|s| - 1]];
      n
  }

  /** `s` is `r` with white space, and only white space, added on both sides. */
  ghost predicate PaddedAt(s: string, r: string, a: int) {
    0 <= a && a + |r| <= |s| && s[a..a + |r|] == r && AllSpace(s[..a]) && AllSpace(s[a + |r|..])
  }

  /** JavaScript `String.prototype.trim`. */
  function Trim(s: string): (r: string)
    ensures Bordered(r)
    ensures PaddedAt(s, r, LeadingSpaces(s))
  {
    var a := LeadingSpaces(s);
    var rest := s[a..];
    var t := TrailingSpaces(rest);
    assert rest[..|rest| - t] == s[a..a + (|rest| - t)];
    assert s[a + (|rest| - t)..] == rest[|rest| - t..];
    rest[..|rest| - t]
  }

  /** Trimming keeps exactly the characters between the outer white-space runs: any bordered
      `r` that pads out to `s` with white space is `Trim(s)`. */
  lemma {:induction false} TrimCharacterized(s: string, r: string, a: int)
    requires Bordered(r) && PaddedAt(s, r, a)
    ensures r == Trim(s)
  {
    var t := Trim(s);
    var b := LeadingSpaces(s);
    assert PaddedAt(s, t, b);
    if r == [] {
      assert AllSpace(s) by {
        forall i | 0 <= i < |s| ensures IsSpace(s[i]) {
          if i >= a { assert s[i] == s[a..][i - a]; } else { assert s[i] == s[..a][i]; }
        }
      }
    } else {
      // Both r and t start at the first non-space character of s and end after
      // the last one.
      TrimEmptyIff(s);
      assert s[a] == r[0] && !IsSpace(s[a]);
      assert t != [];
      var e, f := a + |r|, b + |t|;
      assert s[e - 1] == r[|r| - 1] && s[f - 1] == t[|t| - 1];
      forall i | 0 <= i < a ensures IsSpace(s[i]) { assert s[i] == s[..a][i]; }
      forall i | 0 <= i < b ensures IsSpace(s[i]) { assert s[i] == s[..b][i]; }
      forall i | e <= i < |s| ensures IsSpace(s[i]) { assert s[i] == s[e..][i - e]; }
      forall i | f <= i < |s| ensures IsSpace(s[i]) { assert s[i] == s[f..][i - f]; }
      assert a == b && e == f;
    }
  }

  /** `trim` is idempotent. */
  lemma TrimIdempotent(s: string)
    ensures Trim(Trim(s)) == Trim(s)
  {
    var r := Trim(s);
    assert r[..0] == [] && r[|r|..] == [];
    assert r[0..|r|] == r;
    TrimCharacterized(r, r, 0);
  }

  /** `trim` yields the empty string exactly when the whole string is white space. */
  lemma TrimEmptyIff(s: string)
    ensures Trim(s) == [] <==> AllSpace(s)
  {
    var r := Trim(s);
    var a := LeadingSpaces(s);
    if r == [] {
      forall i | 0 <= i < |s| ensures IsSpace(s[i]) {
        assert s[i] == s[..a][i];
      }
    } else {
      assert r[0] == s[a];
    }
  }

  // ---------------------------------------------------------------------------
  // toLowerCase, includes, endsWith
  // ---------------------------------------------------------------------------

  predicate IsUpper(c: char) {
    'A' <= c <= 'Z'
  }

  function LowerChar(c: char): char {
    if IsUpper(c) then (c as int + 32) as char else c
  }

  /** `toLowerCase`, restricted to the ASCII letters. */
  function Lower(s: string): string {
    seq(|s|, i requires 0 <= i < |s| => LowerChar(s[i]))
  }

  /** Lower-casing leaves no upper-case letter, is idempotent, keeps every other
      character, and moves no white space. */
  lemma LowerProperties(s: string)
    ensures |Lower(s)| == |s|
    ensures forall i :: 0 <= i < |s| ==> !IsUpper(Lower(s)[i])
    ensures forall i :: 0 <= i < |s| && !IsUpper(s[i]) ==> Lower(s)[i] == s[i]
    ensures forall i :: 0 <= i < |s| ==> (IsSpace(Lower(s)[i]) <==> IsSpace(s[i]))
    ensures Lower(Lower(s)) == Lower(s)
  {
  }

  /** Lower-casing distributes over concatenation. */
  lemma LowerAppend(a: string, b: string)
    ensures Lower(a + b) == Lower(a) + Lower(b)
  {
    assert forall i :: 0 <= i < |a + b| ==> Lower(a + b)[i] == (Lower(a) + Lower(b))[i];
  }

  /** `pat` occurs in `text` at index `i`. */
  predicate OccursAt(text: string, pat: string, i: int) {
    0 <= i && i + |pat| <= |text| && text[i..i + |pat|] == pat
  }

  /** JavaScript `text.includes(pat)`. */
  function Contains(text: string, pat: string): (b: bool)
    ensures b <==> exists i :: OccursAt(text, pat, i)
    decreases |text|
  {
    if |pat| <= |text| && text[..|pat|] == pat then
      assert OccursAt(text, pat, 0);
      true
    else if |text| == 0 then
      assert forall i :: !OccursAt(text, pat, i);
      false
    else
      var b := Contains(text[1..], pat);
      assert forall i :: OccursAt(text[1..], pat, i) ==> OccursAt(text, pat, i + 1) by {
        forall i | OccursAt(text[1..], pat, i) ensures OccursAt(text, pat, i + 1) {
          assert text[1..][i..i + |pat|] == text[i + 1..i + 1 + |pat|];
        }
      }
      assert forall i :: OccursAt(text, pat, i) ==> i > 0 && OccursAt(text[1..], pat, i - 1) by {
        forall i | OccursAt(text, pat, i) ensures i > 0 && OccursAt(text[1..], pat, i - 1) {
          assert text[1..][i - 1..i - 1 + |pat|] == text[i..i + |pat|];
        }
      }
      b
  }

  /** What occurs in a suffix of `text` occurs in `text`. */
  lemma ContainsInSuffix(text: string, a: int, pat: string)
    requires 0 <= a <= |text| && Contains(text[a..], pat)
    ensures Contains(text, pat)
  {
    var i :| OccursAt(text[a..], pat, i);
    assert text[a..][i..i + |pat|] == text[a + i..a + i + |pat|];
    assert OccursAt(text, pat, a + i);
  }

  /** JavaScript `s.endsWith(suffix)`. */
  predicate EndsWith(s: string, suffix: string) {
    |suffix| <= |s| && s[|s| - |suffix|..] == suffix
  }

  // ---------------------------------------------------------------------------
  // split("\n\n") and join("\n\n")
  // ---------------------------------------------------------------------------

  const Separator: string := "\n\n"

  /** The blank-line separator begins at index `i` of `s`. */
  predicate SeparatorAt(s: string, i: int) {
    0 <= i && i + 1 < |s| && s[i] == '\n' && s[i + 1] == '\n'
  }

  /** `s` contains no blank-line separator. */
  predicate NoSeparator(s: string) {
    forall i :: 0 <= i < |s| ==> !SeparatorAt(s, i)
  }

  predicate EndsInNewline(s: string) {
    |s| > 0 && s[|s| - 1] == '\n'
  }

  /** JavaScript `s.split("\n\n")`: cut at each leftmost non-overlapping occurrence
      of the separator. The first piece is a prefix of `s`; when there is more
      than one piece, the separator follows it. */
  function Sections(s: string): (r: seq<string>)
    ensures |r| >= 1
    ensures |r[0]| <= |s| && r[0] == s[..|r[0]|]
    ensures |r| == 1 ==> r[0] == s
    ensures |r| > 1 ==> SeparatorAt(s, |r[0]|)
    decreases |s|
  {
    if |s| < 2 then [s]
    else if s[0] == '\n' && s[1] == '\n' then [""] + Sections(s[2..])
    else
      var rest := Sections(s[1..]);
      [[s[0]] + rest[0]] + rest[1..]
  }

  /** JavaScript `parts.join(sep)`. */
  function Join(parts: seq<string>, sep: string): string {
    if |parts| == 0 then ""
    else if |parts| == 1 then parts[0]
    else parts[0] + sep + Join(parts[1..], sep)
  }

  lemma JoinConsChar(c: char, parts: seq<string>, sep: string)
    requires |parts| >= 1
    ensures Join([[c] + parts[0]] + parts[1..], sep) == [c] + Join(parts, sep)
  {
    var ps := [[c] + parts[0]] + parts[1..];
    assert ps[1..] == parts[1..];
  }

  /** Joining the sections with the separator gives back the original text. */
  lemma {:induction false} SectionsJoin(s: string)
    ensures Join(Sections(s), Separator) == s
    decreases |s|
  {
    if |s| < 2 {
    } else if s[0] == '\n' && s[1] == '\n' {
      SectionsJoin(s[2..]);
      var r := [""] + Sections(s[2..]);
      assert r[1..] == Sections(s[2..]);
    } else {
      var rest := Sections(s[1..]);
      SectionsJoin(s[1..]);
      JoinConsChar(s[0], rest, Separator);
    }
  }

  /** No section contains the separator, and every section but the last does
      not end in a newline (otherwise the separator would have been found one
      character earlier). */
  lemma SectionsShape(s: string)
    ensures forall k :: 0 <= k < |Sections(s)| ==> NoSeparator(Sections(s)[k])
    ensures forall k :: 0 <= k < |Sections(s)| - 1 ==> !EndsInNewline(Sections(s)[k])
  {
    SectionsHaveNoSeparator(s);
    SectionsEndWell(s);
  }

  lemma {:induction false} SectionsHaveNoSeparator(s: string)
    ensures forall k :: 0 <= k < |Sections(s)| ==> NoSeparator(Sections(s)[k])
    decreases |s|
  {
    if |s| < 2 {
      assert Sections(s) == [s];
    } else if s[0] == '\n' && s[1] == '\n' {
      SectionsHaveNoSeparator(s[2..]);
      assert Sections(s) == [""] + Sections(s[2..]);
    } else {
      var rest := Sections(s[1..]);
      SectionsHaveNoSeparator(s[1..]);
      var first := [s[0]] + rest[0];
      assert Sections(s) == [first] + rest[1..];
      assert NoSeparator(rest[0]);
      forall i | 0 < i < |first| ensures !SeparatorAt(first, i) {
        assert !SeparatorAt(rest[0], i - 1);
      }
      assert forall k :: 1 <= k < |rest| ==> NoSeparator(rest[k]);
    }
  }

  lemma {:induction false} SectionsEndWell(s: string)
    ensures forall k :: 0 <= k < |Sections(s)| - 1 ==> !EndsInNewline(Sections(s)[k])
    decreases |s|
  {
    if |s| < 2 {
      assert Sections(s) == [s];
    } else if s[0] == '\n' && s[1] == '\n' {
      SectionsEndWell(s[2..]);
      assert Sections(s) == [""] + Sections(s[2..]);
    } else {
      var rest := Sections(s[1..]);
      SectionsEndWell(s[1..]);
      var first := [s[0]] + rest[0];
      assert Sections(s) == [first] + rest[1..];
      if |rest| > 1 {
        assert !EndsInNewline(rest[0]);
        assert |rest[0]| > 0 ==> first[|first| - 1] == rest[0][|rest[0]| - 1];
        if |rest[0]| == 0 {
          assert SeparatorAt(s[1..], 0);
        }
      }
    }
  }

  /** A text without the separator is a single section. */
  lemma {:induction false} SectionsOfPlain(p: string)
    requires NoSeparator(p)
    ensures Sections(p) == [p]
    decreases |p|
  {
    if |p| >= 2 {
      assert !SeparatorAt(p, 0);
      assert NoSeparator(p[1..]) by {
        forall i | 0 <= i < |p| - 1 ensures !SeparatorAt(p[1..], i) {
          assert !SeparatorAt(p, i + 1);
        }
      }
      SectionsOfPlain(p[1..]);
      assert [p[0]] + p[1..] == p;
    }
  }

  /** A piece followed by the separator is cut off as the first section. */
  lemma {:induction false} SectionsOfPiece(p: string, t: string)
    requires NoSeparator(p) && !EndsInNewline(p)
    ensures Sections(p + Separator + t) == [p] + Sections(t)
    decreases |p|
  {
    var s := p + Separator + t;
    if |p| == 0 {
      assert s[2..] == t;
    } else {
      if |p| == 1 { assert s[0] == p[0] != '\n'; } else { assert !SeparatorAt(p, 0); assert s[1] == p[1]; }
      var q := p[1..];
      assert NoSeparator(q) by {
        forall i | 0 <= i < |q| ensures !SeparatorAt(q, i) {
          assert !SeparatorAt(p, i + 1);
        }
      }
      assert s[1..] == q + Separator + t;
      SectionsOfPiece(q, t);
      assert [s[0]] + q == p;
    }
  }

  /** Splitting undoes joining, for pieces shaped as `Sections` produces them. */
  lemma {:induction false} SectionsOfJoin(ps: seq<string>)
    requires |ps| >= 1
    requires forall k :: 0 <= k < |ps| ==> NoSeparator(ps[k])
    requires forall k :: 0 <= k < |ps| - 1 ==> !EndsInNewline(ps[k])
    ensures Sections(Join(ps, Separator)) == ps
    decreases |ps|
  {
    if |ps| == 1 {
      SectionsOfPlain(ps[0]);
    } else {
      SectionsOfJoin(ps[1..]);
      SectionsOfPiece(ps[0], Join(ps[1..], Separator));
    }
  }

  /** Every string in `ps` is all white space. */
  predicate AllBlank(ps: seq<string>) {
    forall k :: 0 <= k < |ps| ==> AllSpace(ps[k])
  }

  lemma AllSpaceConcat(a: string, b: string)
    ensures AllSpace(a + b) <==> AllSpace(a) && AllSpace(b)
  {
    if AllSpace(a + b) {
      assert forall i :: 0 <= i < |a| ==> a[i] == (a + b)[i];
      assert forall i :: 0 <= i < |b| ==> b[i] == (a + b)[|a| + i];
    }
  }

  /** Joining white-space pieces with a white-space separator gives white space. */
  lemma {:induction false} JoinBlank(ps: seq<string>, sep: string)
    requires AllBlank(ps) && AllSpace(sep)
    ensures AllSpace(Join(ps, sep))
    decreases |ps|
  {
    if |ps| > 1 {
      JoinBlank(ps[1..], sep);
      AllSpaceConcat(ps[0], sep);
      AllSpaceConcat(ps[0] + sep, Join(ps[1..], sep));
    }
  }

  /** Every section of a white-space text is white space. */
  lemma {:induction false} SectionsOfBlank(s: string)
    requires AllSpace(s)
    ensures AllBlank(Sections(s))
    decreases |s|
  {
    var r := Sections(s);
    if |s| < 2 {
    } else if s[0] == '\n' && s[1] == '\n' {
      var q := Sections(s[2..]);
      assert s == s[..2] + s[2..];
      AllSpaceConcat(s[..2], s[2..]);
      SectionsOfBlank(s[2..]);
      assert forall k :: 1 <= k < |r| ==> r[k] == q[k - 1];
    } else {
      var rest := Sections(s[1..]);
      assert s == [s[0]] + s[1..];
      AllSpaceConcat([s[0]], s[1..]);
      SectionsOfBlank(s[1..]);
      AllSpaceConcat([s[0]], rest[0]);
      assert forall k :: 1 <= k < |r| ==> r[k] == rest[k];
    }
  }

  /** A text is all white space exactly when every one of its sections is. */
  lemma SectionsBlankIff(s: string)
    ensures AllSpace(s) <==> AllBlank(Sections(s))
  {
    if AllSpace(s) {
      SectionsOfBlank(s);
    }
    if AllBlank(Sections(s)) {
      SectionsJoin(s);
      JoinBlank(Sections(s), Separator);
    }
  }

  // ---------------------------------------------------------------------------
  // split(/\s+/)
  // ---------------------------------------------------------------------------

  /** JavaScript `s.split(/\s+/)`: cut at each maximal run of white space. A
      leading or trailing run yields an empty first or last piece. The first
      piece is the longest prefix of `s` without white space. */
  function SplitOnSpaceRuns(s: string): (r: seq<string>)
    ensures |r| >= 1
    ensures |r[0]| <= |s| && r[0] == s[..|r[0]|] && NoSpace(r[0])
    ensures |r[0]| < |s| ==> IsSpace(s[|r[0]|])
    decreases |s|
  {
    if |s| == 0 then [""]
    else if IsSpace(s[0]) then [""] + SplitOnSpaceRuns(s[LeadingSpaces(s)..])
    else
      var rest := SplitOnSpaceRuns(s[1..]);
      [[s[0]] + rest[0]] + rest[1..]
  }

  /** The white-space run that starts `w + t` is all of `w` when `t` does not
      start with white space. */
  lemma {:induction false} LeadingSpacesOfRun(w: string, t: string)
    requires AllSpace(w) && (t == [] || !IsSpace(t[0]))
    ensures LeadingSpaces(w + t) == |w|
    decreases |w|
  {
    if w == [] {
      assert w + t == t;
    } else {
      assert (w + t)[0] == w[0];
      assert (w + t)[1..] == w[1..] + t;
      LeadingSpacesOfRun(w[1..], t);
    }
  }

  /** A word without white space splits into itself alone. */
  lemma {:induction false} SplitOfWord(p: string)
    requires NoSpace(p)
    ensures SplitOnSpaceRuns(p) == [p]
    decreases |p|
  {
    if p != [] {
      SplitOfWord(p[1..]);
      assert [p[0]] + p[1..] == p;
    }
  }

  /** A word followed by a run of white space is cut off first, before the pieces
      of what follows the run. */
  lemma {:induction false} SplitOfWordThenSpace(p: string, w: string, t: string)
    requires NoSpace(p) && w != [] && AllSpace(w) && (t == [] || !IsSpace(t[0]))
    ensures SplitOnSpaceRuns(p + w + t) == [p] + SplitOnSpaceRuns(t)
    decreases |p|
  {
    var s := p + w + t;
    if p == [] {
      assert s == w + t && s[0] == w[0];
      LeadingSpacesOfRun(w, t);
      assert s[|w|..] == t;
    } else {
      assert s[0] == p[0];
      assert s[1..] == p[1..] + w + t;
      SplitOfWordThenSpace(p[1..], w, t);
      assert [p[0]] + p[1..] == p;
    }
  }

  /** No piece of the split holds white space. */
  lemma {:induction false} SplitPiecesHaveNoSpace(s: string)
    ensures forall k :: 0 <= k < |SplitOnSpaceRuns(s)| ==> NoSpace(SplitOnSpaceRuns(s)[k])
    decreases |s|
  {
    if |s| == 0 {
    } else if IsSpace(s[0]) {
      var t := s[LeadingSpaces(s)..];
      SplitPiecesHaveNoSpace(t);
      var r := [""] + SplitOnSpaceRuns(t);
      assert forall k :: 1 <= k < |r| ==> r[k] == SplitOnSpaceRuns(t)[k - 1];
    } else {
      var rest := SplitOnSpaceRuns(s[1..]);
      SplitPiecesHaveNoSpace(s[1..]);
      var r := [[s[0]] + rest[0]] + rest[1..];
      assert forall k :: 1 <= k < |r| ==> r[k] == rest[k];
    }
  }

  /** Three consecutive non-white-space characters begin at index `i`. */
  predicate WordOfThreeAt(s: string, i: int) {
    0 <= i && i + 2 < |s| && !IsSpace(s[i]) && !IsSpace(s[i + 1]) && !IsSpace(s[i + 2])
  }

  /** A piece longer than two characters comes from three non-white-space characters in a row. */
  lemma {:induction false} LongPieceHasWord(s: string, k: int)
    requires 0 <= k < |SplitOnSpaceRuns(s)| && |SplitOnSpaceRuns(s)[k]| > 2
    ensures exists i :: WordOfThreeAt(s, i)
    decreases |s|
  {
    var r := SplitOnSpaceRuns(s);
    if IsSpace(s[0]) {
      var a := LeadingSpaces(s);
      var t := s[a..];
      assert r[k] == SplitOnSpaceRuns(t)[k - 1];
      LongPieceHasWord(t, k - 1);
      var i :| WordOfThreeAt(t, i);
      assert WordOfThreeAt(s, i + a);
    } else {
      var rest := SplitOnSpaceRuns(s[1..]);
      if k == 0 && |rest[0]| <= 2 {
        assert rest[0][0] == s[1] && rest[0][1] == s[2];
        assert WordOfThreeAt(s, 0);
      } else {
        assert |rest[k]| > 2;
        LongPieceHasWord(s[1..], k);
        var i :| WordOfThreeAt(s[1..], i);
        assert WordOfThreeAt(s, i + 1);
      }
    }
  }

  /** Three non-white-space characters in a row lie inside one piece longer than two characters. */
  lemma {:induction false} WordGivesLongPiece(s: string, i: int)
    requires WordOfThreeAt(s, i)
    ensures exists k :: 0 <= k < |SplitOnSpaceRuns(s)| && |SplitOnSpaceRuns(s)[k]| > 2
    decreases |s|
  {
    var r := SplitOnSpaceRuns(s);
    if IsSpace(s[0]) {
      var a := LeadingSpaces(s);
      var t := s[a..];
      assert WordOfThreeAt(t, i - a);
      WordGivesLongPiece(t, i - a);
      var k :| 0 <= k < |SplitOnSpaceRuns(t)| && |SplitOnSpaceRuns(t)[k]| > 2;
      assert r[k + 1] == SplitOnSpaceRuns(t)[k];
    } else {
      var rest := SplitOnSpaceRuns(s[1..]);
      if i == 0 {
        // s[1] and s[2] are not white space, so the first piece reaches past them.
        assert !IsSpace(s[1..][0]) && !IsSpace(s[1..][1]);
        assert |r[0]| > 2;
      } else {
        assert WordOfThreeAt(s[1..], i - 1);
        WordGivesLongPiece(s[1..], i - 1);
        var k :| 0 <= k < |rest| && |rest[k]| > 2;
        if k == 0 { assert |r[0]| > 2; } else { assert r[k] == rest[k]; }
      }
    }
  }
}
