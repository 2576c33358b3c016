/** `clean_text` and `try_lowercase` of predictor.py: lower-case the text,
    turn every run of characters outside `[a-zA-Z0-9 ]` into one space,
    squeeze runs of spaces, and strip the ends. Lower-casing is ASCII only. */
module TextCleaning {
  import opened Wrappers
  import Strings

  predicate IsUpper(c: char) { 'A' <= c <= 'Z' }

  predicate IsAlnum(c: char) { 'a' <= c <= 'z' || 'A' <= c <= 'Z' || '0' <= c <= '9' }

  /** Characters of the class `[a-zA-Z0-9 ]`, which the first substitution keeps. */
  predicate Kept(c: char) { IsAlnum(c) || c == ' ' }

  predicate NotSpace(c: char) { c != ' ' }

  /** The characters a cleaned text is made of. */
  predicate IsCleanChar(c: char) { 'a' <= c <= 'z' || '0' <= c <= '9' || c == ' ' }

  /** What `str.strip()` removes: the characters Python's `str.isspace` accepts. */
  predicate IsWhitespace(c: char)
  {
    c == ' ' || '\t' <= c <= '\r' || '\U{1c}' <= c <= '\U{1f}' || c == '\U{85}' || c == '\U{a0}'
    || c == '\U{1680}' || '\U{2000}' <= c <= '\U{200a}' || c == '\U{2028}' || c == '\U{2029}'
    || c == '\U{202f}' || c == '\U{205f}' || c == '\U{3000}'
  }

  predicate NoDoubleSpace(s: string)
  {
    forall i :: 0 <= i < |s| - 1 ==> !(s[i] == ' ' && s[i + 1] == ' ')
  }

  /** What `clean_text` promises of its result. */
  predicate IsClean(s: string)
  {
    (forall i :: 0 <= i < |s| ==> IsCleanChar(s[i]))
    && NoDoubleSpace(s)
    && (|s| > 0 ==> s[0] != ' ' && s[|s| - 1] != ' ')
  }

  /** The alphanumeric characters of `s`, in order. */
  function Alnums(s: string): string
  {
    if |s| == 0 then "" else (if IsAlnum(s[0]) then [s[0]] else "") + Alnums(s[1..])
  }

  function ToLower(c: char): char
  {
    if IsUpper(c) then (c as int + 32) as char else c
  }

  /** `str.lower()`, restricted to ASCII letters. */
  function Lower(s: string): string
  {
    seq(|s|, i requires 0 <= i < |s| => ToLower(s[i]))
  }

  /** The maximal runs of letters and digits of `s`, in order. */
  function AlnumRuns(s: string): (r: seq<string>)
    ensures |s| > 0 && IsAlnum(s[0]) ==> |r| > 0
    decreases |s|
  {
    if |s| == 0 then []
    else
      var r := AlnumRuns(s[1..]);
      if !IsAlnum(s[0]) then r
      else if |s| > 1 && IsAlnum(s[1]) then [[s[0]] + r[0]] + r[1..]
      else [[s[0]]] + r
  }

  /** The pieces of `s` left between the maximal runs of characters that `keep`
      rejects, in order; such a run at either end leaves an empty piece there. */
  function KeptPieces(s: string, keep: char -> bool): (r: seq<string>)
    ensures |r| >= 1
    decreases |s|
  {
    if |s| == 0 then [""]
    else
      var r := KeptPieces(s[1..], keep);
      if keep(s[0]) then [[s[0]] + r[0]] + r[1..]
      else if |s| > 1 && !keep(s[1]) then r
      else [""] + r
  }

  /** Drops the leading characters outside `[a-zA-Z0-9 ]`. */
  function SkipUnkept(s: string): (r: string)
    ensures |r| <= |s| && r == s[|s| - |r|..]
    ensures forall i :: 0 <= i < |s| - |r| ==> !Kept(s[i])
    ensures |r| > 0 ==> Kept(r[0])
  {
    if |s| > 0 && !Kept(s[0]) then
      var r := SkipUnkept(s[1..]);
      assert forall i :: 1 <= i < |s| - |r| ==> s[i] == s[1..][i - 1];
      r
    else s
  }

  /** `re.sub('[^a-zA-Z0-9 ]+', ' ', s)`: each maximal run of other characters becomes one space. */
  function ReplaceRuns(s: string): (r: string)
    decreases |s|
  {
    if |s| == 0 then ""
    else if Kept(s[0]) then [s[0]] + ReplaceRuns(s[1..])
    else " " + ReplaceRuns(SkipUnkept(s[1..]))
  }

  /** Drops the leading spaces. */
  function SkipSpaces(s: string): (r: string)
    ensures |r| <= |s| && r == s[|s| - |r|..]
    ensures forall i :: 0 <= i < |s| - |r| ==> s[i] == ' '
    ensures |r| > 0 ==> r[0] != ' '
  {
    if |s| > 0 && s[0] == ' ' then SkipSpaces(s[1..]) else s
  }

  /** `re.sub(' +', ' ', s)`: each run of spaces becomes one space. */
  function CollapseSpaces(s: string): (r: string)
    decreases |s|
  {
    if |s| == 0 then ""
    else if s[0] == ' ' then " " + CollapseSpaces(SkipSpaces(s[1..]))
    else [s[0]] + CollapseSpaces(s[1..])
  }

  /** `str.lstrip()`. */
  function LStrip(s: string): (r: string)
    ensures |r| <= |s| && r == s[|s| - |r|..]
    ensures forall i :: 0 <= i < |s| - |r| ==> IsWhitespace(s[i])
    ensures |r| > 0 ==> !IsWhitespace(r[0])
  {
    if |s| > 0 && IsWhitespace(s[0]) then LStrip(s[1..]) else s
  }

  /** `str.rstrip()`. */
  function RStrip(s: string): (r: string)
    ensures |r| <= |s| && r == s[..|r|]
    ensures forall i :: |r| <= i < |s| ==> IsWhitespace(s[i])
    ensures |r| > 0 ==> !IsWhitespace(r[|r| - 1])
  {
    if |s| > 0 && IsWhitespace(s[|s| - 1]) then RStrip(s[..|s| - 1]) else s
  }

  /** `str.strip()`. */
  function Strip(s: string): string
  {
    RStrip(LStrip(s))
  }

  /** `clean_text(text)`: a value that is not a string makes `.lower()` raise,
      and the handler returns `""`. */
  function CleanText(text: Field): (r: string)
    ensures IsClean(r)
    ensures !text.Text? ==> r == ""
  {
    match text
    case Text(t) =>
      var r := Strip(CollapseSpaces(ReplaceRuns(Lower(t))));
      CleanPipelineIsClean(t);
      r
    case _ => ""
  }

  /** `try_lowercase(text)`: strings are lower-cased, other values pass through. */
  function TryLowercase(text: Field): (r: Field)
    ensures text.Text? <==> r.Text?
    ensures text.Text? ==> |r.s| == |text.s| && forall i :: 0 <= i < |r.s| ==> !IsUpper(r.s[i])
    ensures text.Text? ==> forall i :: 0 <= i < |text.s| ==>
      (IsUpper(text.s[i]) ==> r.s[i] as int == text.s[i] as int + 32)
      && (!IsUpper(text.s[i]) ==> r.s[i] == text.s[i])
    ensures !text.Text? ==> r == text
  {
    match text
    case Text(t) => Text(Lower(t))
    case _ => text
  }

  // ---------------------------------------------------------------------------
  // Lemmas about the stages of the pipeline

  lemma {:induction false} AlnumsConcat(a: string, b: string)
    ensures Alnums(a + b) == Alnums(a) + Alnums(b)
    decreases |a|
  {
    if |a| == 0 {
      assert a + b == b;
    } else {
      var head := if IsAlnum(a[0]) then [a[0]] else "";
      assert (a + b)[0] == a[0];
      assert (a + b)[1..] == a[1..] + b;
      AlnumsConcat(a[1..], b);
      calc {
        Alnums(a + b);
        head + Alnums(a[1..] + b);
        head + (Alnums(a[1..]) + Alnums(b));
        (head + Alnums(a[1..])) + Alnums(b);
      }
    }
  }

  lemma {:induction false} AlnumsOfSkipped(s: string, k: nat)
    requires k <= |s|
    requires forall i :: 0 <= i < k ==> !IsAlnum(s[i])
    ensures Alnums(s) == Alnums(s[k..])
  {
    if k > 0 {
      AlnumsOfSkipped(s[1..], k - 1);
      assert s[1..][k - 1..] == s[k..];
    }
  }

  /** Each maximal run of characters outside `[a-zA-Z0-9 ]` becomes exactly one
      space, and the characters between such runs are kept as they are. */
  lemma {:induction false} ReplaceRunsProps(s: string)
    ensures ReplaceRuns(s) == Strings.Join(KeptPieces(s, Kept), ' ')
    ensures forall c :: c in ReplaceRuns(s) ==> Kept(c) && (c == ' ' || c in s)
    ensures Alnums(ReplaceRuns(s)) == Alnums(s)
  {
    ReplaceRunsPieces(s);
    ReplaceRunsChars(s);
  }

  lemma {:induction false} ReplaceRunsChars(s: string)
    ensures forall c :: c in ReplaceRuns(s) ==> Kept(c) && (c == ' ' || c in s)
    ensures Alnums(ReplaceRuns(s)) == Alnums(s)
    decreases |s|
  {
    if |s| > 0 {
      if Kept(s[0]) {
        ReplaceRunsChars(s[1..]);
        assert ([s[0]] + ReplaceRuns(s[1..]))[1..] == ReplaceRuns(s[1..]);
      } else {
        var t := SkipUnkept(s[1..]);
        ReplaceRunsChars(t);
        assert forall c :: c in t ==> c in s[1..];
        AlnumsOfSkipped(s[1..], |s[1..]| - |t|);
        assert (" " + ReplaceRuns(t))[1..] == ReplaceRuns(t);
      }
    }
  }

  lemma {:induction false} ReplaceRunsKeeps(s: string)
    requires forall i :: 0 <= i < |s| ==> Kept(s[i])
    ensures ReplaceRuns(s) == s
  {
    if |s| > 0 {
      ReplaceRunsKeeps(s[1..]);
      assert s == [s[0]] + s[1..];
    }
  }

  /** The first character of a collapsed string is a space exactly when the input's is. */
  lemma CollapseHead(s: string)
    ensures |CollapseSpaces(s)| == 0 <==> |s| == 0
    ensures |s| > 0 ==> (CollapseSpaces(s)[0] == ' ' <==> s[0] == ' ')
  {
  }

  /** Each maximal run of spaces becomes exactly one space, and the characters
      between such runs are kept as they are. */
  lemma {:induction false} CollapseProps(s: string)
    ensures CollapseSpaces(s) == Strings.Join(KeptPieces(s, NotSpace), ' ')
    ensures forall c :: c in CollapseSpaces(s) ==> c in s
    ensures NoDoubleSpace(CollapseSpaces(s))
    ensures Alnums(CollapseSpaces(s)) == Alnums(s)
  {
    CollapsePieces(s);
    CollapseChars(s);
  }

  lemma {:induction false} CollapseChars(s: string)
    ensures forall c :: c in CollapseSpaces(s) ==> c in s
    ensures NoDoubleSpace(CollapseSpaces(s))
    ensures Alnums(CollapseSpaces(s)) == Alnums(s)
    decreases |s|
  {
    if |s| > 0 {
      var r := CollapseSpaces(s);
      if s[0] == ' ' {
        var t := SkipSpaces(s[1..]);
        CollapseChars(t);
        CollapseHead(t);
        assert forall c :: c in t ==> c in s[1..];
        assert r == " " + CollapseSpaces(t);
        assert r[1..] == CollapseSpaces(t);
        AlnumsOfSkipped(s[1..], |s[1..]| - |t|);
      } else {
        CollapseChars(s[1..]);
        assert r == [s[0]] + CollapseSpaces(s[1..]);
        assert r[1..] == CollapseSpaces(s[1..]);
      }
    }
  }

  lemma {:induction false} CollapseKeeps(s: string)
    requires NoDoubleSpace(s)
    ensures CollapseSpaces(s) == s
    decreases |s|
  {
    if |s| > 0 {
      assert NoDoubleSpace(s[1..]);
      CollapseKeeps(s[1..]);
      if s[0] == ' ' {
        assert SkipSpaces(s[1..]) == s[1..];
      }
      assert s == [s[0]] + s[1..];
    }
  }

  /** `Strip(s)` is the slice `s[i..j]`; everything outside it is whitespace. */
  lemma StripIsSlice(s: string) returns (i: nat, j: nat)
    ensures i <= j <= |s| && Strip(s) == s[i..j]
    ensures forall k :: 0 <= k < i ==> IsWhitespace(s[k])
    ensures forall k :: j <= k < |s| ==> IsWhitespace(s[k])
  {
    var l := LStrip(s);
    var r := RStrip(l);
    i := |s| - |l|;
    j := i + |r|;
    assert l == s[i..];
    assert r == s[i..][..|r|];
    forall k | j <= k < |s| ensures IsWhitespace(s[k]) {
      assert s[k] == l[k - i];
    }
  }

  /** `Strip(s)` is the slice of `s` between its leading and its trailing
      whitespace, and neither of its ends is whitespace. */
  lemma StripProps(s: string)
    ensures exists i, j ::
              (0 <= i <= j <= |s| && Strip(s) == s[i..j]
               && (forall k :: 0 <= k < i ==> IsWhitespace(s[k]))
               && (forall k :: j <= k < |s| ==> IsWhitespace(s[k])))
    ensures forall c :: c in Strip(s) ==> c in s
    ensures NoDoubleSpace(s) ==> NoDoubleSpace(Strip(s))
    ensures |Strip(s)| > 0 ==> !IsWhitespace(Strip(s)[0]) && !IsWhitespace(Strip(s)[|Strip(s)| - 1])
    ensures Alnums(Strip(s)) == Alnums(s)
  {
    var i, j := StripIsSlice(s);
    StripEnds(s);
    StripAlnums(s);
    StripSubstring(s);
  }

  lemma StripEnds(s: string)
    ensures |Strip(s)| > 0 ==> !IsWhitespace(Strip(s)[0]) && !IsWhitespace(Strip(s)[|Strip(s)| - 1])
  {
    var l := LStrip(s);
    var r := RStrip(l);
    if |r| > 0 {
      assert r[0] == l[0];
    }
  }

  lemma StripAlnums(s: string)
    ensures Alnums(Strip(s)) == Alnums(s)
  {
    var l := LStrip(s);
    AlnumsOfSkipped(s, |s| - |l|);
    RStripAlnums(l);
  }

  lemma StripSubstring(s: string)
    ensures forall c :: c in Strip(s) ==> c in s
    ensures NoDoubleSpace(s) ==> NoDoubleSpace(Strip(s))
  {
    var i, j := StripIsSlice(s);
    var r := Strip(s);
    forall c | c in r ensures c in s {
      var k :| 0 <= k < |r| && r[k] == c;
      assert s[i + k] == c;
    }
    if NoDoubleSpace(s) {
      forall k | 0 <= k < |r| - 1 ensures !(r[k] == ' ' && r[k + 1] == ' ') {
        assert r[k] == s[i + k] && r[k + 1] == s[i + k + 1];
      }
    }
  }

  lemma RStripAlnums(l: string)
    ensures Alnums(RStrip(l)) == Alnums(l)
  {
    var r := RStrip(l);
    var tail := l[|r|..];
    assert l == r + tail;
    AlnumsConcat(r, tail);
    AlnumsOfSkipped(tail, |tail|);
    assert tail[|tail|..] == "";
  }

  lemma StripKeeps(s: string)
    requires |s| > 0 ==> !IsWhitespace(s[0]) && !IsWhitespace(s[|s| - 1])
    ensures Strip(s) == s
  {
  }

  lemma LowerProps(s: string)
    ensures forall c :: c in Lower(s) ==> !IsUpper(c)
  {
    forall c | c in Lower(s) ensures !IsUpper(c) {
      var i :| 0 <= i < |s| && Lower(s)[i] == c;
    }
  }

  lemma CleanPipelineIsClean(t: string)
    ensures IsClean(Strip(CollapseSpaces(ReplaceRuns(Lower(t)))))
  {
    var l := Lower(t);
    var a := ReplaceRuns(l);
    var b := CollapseSpaces(a);
    var r := Strip(b);
    LowerProps(t);
    ReplaceRunsProps(l);
    CollapseProps(a);
    StripProps(b);
    forall i | 0 <= i < |r| ensures IsCleanChar(r[i]) {
      assert r[i] in r;
    }
  }

  /** Every run is a non-empty word of letters and digits. */
  lemma {:induction false} RunsAreWords(s: string)
    ensures forall k :: 0 <= k < |AlnumRuns(s)| ==> |AlnumRuns(s)[k]| > 0 && forall c :: c in AlnumRuns(s)[k] ==> IsAlnum(c)
    decreases |s|
  {
    if |s| > 0 {
      RunsAreWords(s[1..]);
    }
  }

  lemma {:induction false} PiecesAfterRun(s: string, keep: char -> bool, k: nat)
    requires 1 <= k <= |s|
    requires forall i :: 0 <= i < k ==> !keep(s[i])
    requires k < |s| ==> keep(s[k])
    ensures KeptPieces(s, keep) == [""] + KeptPieces(s[k..], keep)
    decreases k
  {
    if k > 1 {
      assert !keep(s[1]);
      PiecesAfterRun(s[1..], keep, k - 1);
      assert s[1..][k - 1..] == s[k..];
    }
  }

  lemma {:induction false} ReplaceRunsPieces(s: string)
    ensures ReplaceRuns(s) == Strings.Join(KeptPieces(s, Kept), ' ')
    decreases |s|
  {
    if |s| > 0 {
      if Kept(s[0]) {
        var r := KeptPieces(s[1..], Kept);
        ReplaceRunsPieces(s[1..]);
        assert r == [r[0]] + r[1..];
        Strings.JoinPrepend([s[0]], r[0], r[1..], ' ');
      } else {
        var t := SkipUnkept(s[1..]);
        var k := |s| - |t|;
        assert forall i :: 1 <= i < k ==> s[i] == s[1..][i - 1];
        assert s[k..] == t;
        PiecesAfterRun(s, Kept, k);
        ReplaceRunsPieces(t);
        Strings.JoinEmptyFirst(KeptPieces(t, Kept), ' ');
      }
    }
  }

  lemma {:induction false} CollapsePieces(s: string)
    ensures CollapseSpaces(s) == Strings.Join(KeptPieces(s, NotSpace), ' ')
    decreases |s|
  {
    if |s| > 0 {
      if s[0] != ' ' {
        var r := KeptPieces(s[1..], NotSpace);
        CollapsePieces(s[1..]);
        assert r == [r[0]] + r[1..];
        Strings.JoinPrepend([s[0]], r[0], r[1..], ' ');
      } else {
        var t := SkipSpaces(s[1..]);
        var k := |s| - |t|;
        assert forall i :: 1 <= i < k ==> s[i] == s[1..][i - 1];
        assert s[k..] == t;
        PiecesAfterRun(s, NotSpace, k);
        CollapsePieces(t);
        Strings.JoinEmptyFirst(KeptPieces(t, NotSpace), ' ');
      }
    }
  }

  /** `AlnumRuns` of a string with one more character in front. */
  lemma RunsCons(c: char, x: string)
    ensures AlnumRuns([c] + x) ==
      if !IsAlnum(c) then AlnumRuns(x)
      else if |x| > 0 && IsAlnum(x[0]) then [[c] + AlnumRuns(x)[0]] + AlnumRuns(x)[1..]
      else [[c]] + AlnumRuns(x)
  {
    assert ([c] + x)[1..] == x;
  }

  /** Characters other than letters and digits in front leave the runs alone. */
  lemma {:induction false} RunsSkipPrefix(p: string, q: string)
    requires forall i :: 0 <= i < |p| ==> !IsAlnum(p[i])
    ensures AlnumRuns(p + q) == AlnumRuns(q)
    decreases |p|
  {
    if |p| > 0 {
      assert p + q == [p[0]] + (p[1..] + q);
      assert !IsAlnum(p[0]);
      RunsCons(p[0], p[1..] + q);
      RunsSkipPrefix(p[1..], q);
    } else {
      assert p + q == q;
    }
  }

  /** Characters other than letters and digits behind leave the runs alone. */
  lemma {:induction false} RunsDropSuffix(m: string, w: string)
    requires forall i :: 0 <= i < |w| ==> !IsAlnum(w[i])
    ensures AlnumRuns(m + w) == AlnumRuns(m)
    decreases |m|
  {
    if |m| == 0 {
      assert m + w == w + "";
      RunsSkipPrefix(w, "");
    } else {
      assert m + w == [m[0]] + (m[1..] + w);
      assert m == [m[0]] + m[1..];
      RunsCons(m[0], m[1..] + w);
      RunsCons(m[0], m[1..]);
      RunsDropSuffix(m[1..], w);
      if |m| > 1 {
        assert (m[1..] + w)[0] == m[1];
      } else {
        assert m[1..] + w == w;
      }
    }
  }

  lemma {:induction false} ReplaceRunsRuns(s: string)
    ensures AlnumRuns(ReplaceRuns(s)) == AlnumRuns(s)
    ensures |ReplaceRuns(s)| > 0 <==> |s| > 0
    ensures |s| > 0 ==> (IsAlnum(ReplaceRuns(s)[0]) <==> IsAlnum(s[0]))
    decreases |s|
  {
    if |s| > 0 {
      assert s == [s[0]] + s[1..];
      RunsCons(s[0], s[1..]);
      if Kept(s[0]) {
        ReplaceRunsRuns(s[1..]);
        RunsCons(s[0], ReplaceRuns(s[1..]));
      } else {
        var t := SkipUnkept(s[1..]);
        var p := s[1..][..|s[1..]| - |t|];
        ReplaceRunsRuns(t);
        RunsCons(' ', ReplaceRuns(t));
        assert s[1..] == p + t;
        RunsSkipPrefix(p, t);
      }
    }
  }

  lemma {:induction false} CollapseRuns(s: string)
    ensures AlnumRuns(CollapseSpaces(s)) == AlnumRuns(s)
    ensures |CollapseSpaces(s)| > 0 <==> |s| > 0
    ensures |s| > 0 ==> CollapseSpaces(s)[0] == s[0]
    decreases |s|
  {
    if |s| > 0 {
      assert s == [s[0]] + s[1..];
      RunsCons(s[0], s[1..]);
      if s[0] == ' ' {
        var t := SkipSpaces(s[1..]);
        var p := s[1..][..|s[1..]| - |t|];
        CollapseRuns(t);
        RunsCons(' ', CollapseSpaces(t));
        assert s[1..] == p + t;
        RunsSkipPrefix(p, t);
      } else {
        CollapseRuns(s[1..]);
        RunsCons(s[0], CollapseSpaces(s[1..]));
      }
    }
  }

  lemma StripRuns(s: string)
    ensures AlnumRuns(Strip(s)) == AlnumRuns(s)
  {
    var i, j := StripIsSlice(s);
    assert s == s[..i] + (s[i..j] + s[j..]);
    RunsSkipPrefix(s[..i], s[i..j] + s[j..]);
    RunsDropSuffix(s[i..j], s[j..]);
  }

  /** A clean string is its runs of letters and digits joined by single spaces. */
  lemma {:induction false} CleanIsJoinedRuns(s: string)
    requires IsClean(s)
    ensures s == Strings.Join(AlnumRuns(s), ' ')
    decreases |s|
  {
    if |s| > 0 {
      var x := s[1..];
      assert s == [s[0]] + x;
      assert IsAlnum(s[0]);
      RunsCons(s[0], x);
      if |x| > 0 && x[0] != ' ' {
        assert IsClean(x);
        CleanIsJoinedRuns(x);
        var r := AlnumRuns(x);
        assert r == [r[0]] + r[1..];
        Strings.JoinPrepend([s[0]], r[0], r[1..], ' ');
      } else if |x| > 0 {
        var y := x[1..];
        assert s[1] == ' ' && s[|s| - 1] != ' ';
        assert y[0] == s[2];
        assert IsClean(y);
        CleanIsJoinedRuns(y);
        assert x == [' '] + y;
        RunsCons(' ', y);
        assert ([[s[0]]] + AlnumRuns(y))[1..] == AlnumRuns(y);
      }
    }
  }

  // ---------------------------------------------------------------------------
  // Properties of clean_text

  /** `clean_text` gives the maximal runs of letters and digits of the
      lower-cased text, in order, with exactly one space between neighbours. */
  lemma CleanTextIsJoinedRuns(t: string)
    ensures CleanText(Text(t)) == Strings.Join(AlnumRuns(Lower(t)), ' ')
  {
    var l := Lower(t);
    var a := ReplaceRuns(l);
    var b := CollapseSpaces(a);
    ReplaceRunsRuns(l);
    CollapseRuns(a);
    StripRuns(b);
    CleanIsJoinedRuns(CleanText(Text(t)));
  }

  /** Lower-casing twice is lower-casing once. */
  lemma TryLowercaseIdempotent(text: Field)
    ensures TryLowercase(TryLowercase(text)) == TryLowercase(text)
  {
  }

  /** Cleaning keeps every letter and digit of the lower-cased text, in order,
      and adds none: only spaces are dropped or inserted. */
  lemma {:induction false} CleanTextKeepsAlnums(t: string)
    ensures Alnums(CleanText(Text(t))) == Alnums(Lower(t))
  {
    var l := Lower(t);
    ReplaceRunsProps(l);
    CollapseProps(ReplaceRuns(l));
    StripProps(CollapseSpaces(ReplaceRuns(l)));
  }

  /** A cleaned text is its own cleaning. */
  lemma {:induction false} CleanTextIdempotent(text: Field)
    ensures CleanText(Text(CleanText(text))) == CleanText(text)
  {
    var s := CleanText(text);
    CleanIsFixedPoint(s);
  }

  lemma CleanIsFixedPoint(s: string)
    requires IsClean(s)
    ensures Strip(CollapseSpaces(ReplaceRuns(Lower(s)))) == s
  {
    assert forall i :: 0 <= i < |s| ==> ToLower(s[i]) == s[i];
    assert Lower(s) == s;
    ReplaceRunsKeeps(s);
    CollapseKeeps(s);
    StripKeeps(s);
  }
}
