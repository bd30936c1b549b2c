/** The admin "new product" form: the slug derived from the name, the list
    of image slots, and the submission that inserts the product and then
    uploads each chosen image and records it. Store calls are inputs: the id
    the store gives the product and the first call that fails, if any. */
module NewProduct {
  import opened Text
  import opened Seqs
  import opened Wrappers

  // ---- generateSlug ----

  /** `\w` in a JavaScript regular expression. */
  predicate IsWordChar(c: char) {
    IsUpper(c) || IsLower(c) || IsDigit(c) || c == '_'
  }

  /** `\s` in a JavaScript regular expression, which is also the set
      `String.prototype.trim` removes. */
  predicate IsSpace(c: char) {
    || c == '\t' || c == '\n' || c == '\U{000B}' || c == '\U{000C}' || c == '\r' || c == ' '
    || c == '\U{00A0}' || c == '\U{1680}' || ('\U{2000}' <= c <= '\U{200A}')
    || c == '\U{2028}' || c == '\U{2029}' || c == '\U{202F}' || c == '\U{205F}'
    || c == '\U{3000}' || c == '\U{FEFF}'
  }

  predicate IsHyphen(c: char) { c == '-' }

  /** The characters a slug is made of: `[a-z0-9_-]`. */
  predicate IsSlugChar(c: char) {
    IsLower(c) || IsDigit(c) || c == '_' || c == '-'
  }

  /** No two hyphens in a row. */
  predicate NoDoubleHyphen(s: string) {
    forall i :: 0 <= i < |s| - 1 ==> !(s[i] == '-' && s[i + 1] == '-')
  }

  /** `.replace(/[^\w\s-]/g, '')`: only word characters, whitespace and
      hyphens remain, every occurrence of them does, in their order, and
      nothing is added. */
  function StripDisallowed(s: string): (r: string)
    ensures |r| <= |s|
    ensures forall i :: 0 <= i < |r| ==> IsWordChar(r[i]) || IsSpace(r[i]) || r[i] == '-'
    ensures forall i :: 0 <= i < |s| && (IsWordChar(s[i]) || IsSpace(s[i]) || s[i] == '-') ==> s[i] in r
    ensures IsSubseq(r, s)
    ensures forall c :: multiset(r)[c] == if IsWordChar(c) || IsSpace(c) || c == '-' then multiset(s)[c] else 0
  {
    var keep := (c: char) => IsWordChar(c) || IsSpace(c) || c == '-';
    FilterIsSubseq(keep, s);
    FilterMultiset(keep, s);
    FilterNoOthers(keep, s);
    Filter(keep, s)
  }

  /** Drops the run of leading characters that satisfy `p`. */
  function SkipRun(s: string, p: char -> bool): (r: string)
    ensures |r| <= |s| && r == s[|s| - |r|..]
    ensures r == [] || !p(r[0])
    decreases |s|
  {
    if s != [] && p(s[0]) then SkipRun(s[1..], p) else s
  }

  /** `.replace(/P+/g, '-')`: every maximal run of characters satisfying `p`
      becomes one hyphen; other characters are copied. */
  function ReplaceRuns(s: string, p: char -> bool): (r: string)
    ensures |r| <= |s|
    ensures |r| == 0 <==> |s| == 0
    ensures s != [] && p(s[0]) ==> r[0] == '-'
    ensures s != [] && !p(s[0]) ==> r[0] == s[0]
    decreases |s|
  {
    if s == [] then []
    else if p(s[0]) then "-" + ReplaceRuns(SkipRun(s[1..], p), p)
    else [s[0]] + ReplaceRuns(s[1..], p)
  }

  /** Every character of the result is a hyphen or a character of the input
      outside the runs. */
  lemma {:induction false} ReplaceRunsChars(s: string, p: char -> bool)
    ensures var r := ReplaceRuns(s, p);
      forall c :: c in r ==> c == '-' || (!p(c) && c in s)
    decreases |s|
  {
    if s != [] {
      if p(s[0]) {
        var rest := SkipRun(s[1..], p);
        ReplaceRunsChars(rest, p);
        TailSuffixIn(s, rest);
      } else {
        ReplaceRunsChars(s[1..], p);
      }
    }
  }

  /** Skipping a run stops at the first character outside it. */
  lemma {:induction false} SkipRunAppend(x: string, c: char, b: string, p: char -> bool)
    requires !p(c)
    ensures SkipRun(x + [c] + b, p) == SkipRun(x, p) + [c] + b
    decreases |x|
  {
    if x == [] {
      assert x + [c] + b == [c] + b;
    } else if p(x[0]) {
      HeadTailAround(x, c, b);
      SkipRunAppend(x[1..], c, b, p);
    }
  }

  /** Skipping a string made only of run characters leaves nothing. */
  lemma {:induction false} SkipRunAll(s: string, p: char -> bool)
    requires forall i :: 0 <= i < |s| ==> p(s[i])
    ensures SkipRun(s, p) == []
    decreases |s|
  {
    if s != [] {
      SkipRunAll(s[1..], p);
    }
  }

  /** A character outside the runs splits the replacement: the parts before
      and after it are replaced independently and it is copied between them. */
  lemma {:induction false} ReplaceRunsSplit(a: string, c: char, b: string, p: char -> bool)
    requires !p(c)
    ensures ReplaceRuns(a + [c] + b, p) == ReplaceRuns(a, p) + [c] + ReplaceRuns(b, p)
    decreases |a|
  {
    var s := a + [c] + b;
    if a == [] {
      assert s == [c] + b;
      ReplaceRunsKeep(c, b, p);
    } else {
      HeadTailAround(a, c, b);
      if p(a[0]) {
        SkipRunAppend(a[1..], c, b, p);
        var t := SkipRun(a[1..], p);
        ReplaceRunsSplit(t, c, b, p);
        calc {
          ReplaceRuns(s, p);
          "-" + ReplaceRuns(t + [c] + b, p);
          "-" + (ReplaceRuns(t, p) + [c] + ReplaceRuns(b, p));
          { PrependAssoc("-", ReplaceRuns(t, p), c, ReplaceRuns(b, p)); }
          ("-" + ReplaceRuns(t, p)) + [c] + ReplaceRuns(b, p);
          ReplaceRuns(a, p) + [c] + ReplaceRuns(b, p);
        }
      } else {
        ReplaceRunsSplit(a[1..], c, b, p);
        calc {
          ReplaceRuns(s, p);
          [a[0]] + ReplaceRuns(a[1..] + [c] + b, p);
          [a[0]] + (ReplaceRuns(a[1..], p) + [c] + ReplaceRuns(b, p));
          { PrependAssoc([a[0]], ReplaceRuns(a[1..], p), c, ReplaceRuns(b, p)); }
          ([a[0]] + ReplaceRuns(a[1..], p)) + [c] + ReplaceRuns(b, p);
          ReplaceRuns(a, p) + [c] + ReplaceRuns(b, p);
        }
      }
    }
  }

  /** Characters outside the runs at the front are copied as they are. */
  lemma {:induction false} ReplaceRunsPrefixNone(x: string, s: string, p: char -> bool)
    requires forall i :: 0 <= i < |x| ==> !p(x[i])
    ensures ReplaceRuns(x + s, p) == x + ReplaceRuns(s, p)
    decreases |x|
  {
    if x == [] {
      assert x + s == s;
    } else {
      HeadTail(x, s);
      ReplaceRunsPrefixNone(x[1..], s, p);
      calc {
        ReplaceRuns(x + s, p);
        [x[0]] + ReplaceRuns(x[1..] + s, p);
        [x[0]] + (x[1..] + ReplaceRuns(s, p));
        { ConcatAssoc([x[0]], x[1..], ReplaceRuns(s, p)); }
        ([x[0]] + x[1..]) + ReplaceRuns(s, p);
        { HeadTail(x, s); }
        x + ReplaceRuns(s, p);
      }
    }
  }

  /** Skipping a whole run at the front stops where it ends. */
  lemma {:induction false} SkipRunPrefixAll(x: string, s: string, p: char -> bool)
    requires forall i :: 0 <= i < |x| ==> p(x[i])
    requires s == [] || !p(s[0])
    ensures SkipRun(x + s, p) == s
    decreases |x|
  {
    if x == [] {
      assert x + s == s;
    } else {
      HeadTail(x, s);
      SkipRunPrefixAll(x[1..], s, p);
    }
  }

  /** A whole run at the front becomes one hyphen. */
  lemma ReplaceRunsRunPrefix(run: string, s: string, p: char -> bool)
    requires run != [] && forall i :: 0 <= i < |run| ==> p(run[i])
    requires s == [] || !p(s[0])
    ensures ReplaceRuns(run + s, p) == "-" + ReplaceRuns(s, p)
  {
    HeadTail(run, s);
    SkipRunPrefixAll(run[1..], s, p);
  }

  lemma ConcatAssoc(x: string, y: string, z: string)
    ensures x + (y + z) == (x + y) + z
  {
  }

  lemma PrependAssoc(x: string, y: string, c: char, z: string)
    ensures x + (y + [c] + z) == (x + y) + [c] + z
  {
  }

  /** A non-empty run, however long, becomes a single hyphen. */
  lemma ReplaceRunsAllRun(s: string, p: char -> bool)
    requires s != [] && forall i :: 0 <= i < |s| ==> p(s[i])
    ensures ReplaceRuns(s, p) == "-"
  {
    SkipRunAll(s[1..], p);
  }

  function TrimStart(s: string): (r: string)
    ensures |r| <= |s|
    ensures r == [] || !IsSpace(r[0])
    ensures forall i :: 0 <= i < |s| - |r| ==> IsSpace(s[i])
    decreases |s|
  {
    if s != [] && IsSpace(s[0]) then TrimStart(s[1..]) else s
  }

  /** Trimming the front leaves a suffix of the input. */
  lemma {:induction false} TrimStartSuffix(s: string)
    ensures TrimStart(s) == s[|s| - |TrimStart(s)|..]
    decreases |s|
  {
    if s != [] && IsSpace(s[0]) {
      TrimStartSuffix(s[1..]);
    }
  }

  function TrimEnd(s: string): (r: string)
    ensures |r| <= |s| && r == s[..|r|]
    ensures r == [] || !IsSpace(r[|r| - 1])
    ensures forall i :: |r| <= i < |s| ==> IsSpace(s[i])
    decreases |s|
  {
    if s != [] && IsSpace(s[|s| - 1]) then TrimEnd(s[..|s| - 1]) else s
  }

  /** `.trim()`: the result is the middle piece of the input left once the
      whitespace at both ends is removed; it neither starts nor ends with
      whitespace. */
  function Trim(s: string): (r: string)
    ensures |r| <= |s|
    ensures r == [] || (!IsSpace(r[0]) && !IsSpace(r[|r| - 1]))
    ensures exists k :: TrimmedAt(s, r, k)
  {
    var t := TrimStart(s);
    TrimStartSuffix(s);
    TrimmedAtWitness(s, t, TrimEnd(t));
    TrimEnd(t)
  }

  /** `r` is the piece of `s` starting at `k`, and everything of `s` outside
      it is whitespace. */
  ghost predicate TrimmedAt(s: string, r: string, k: int) {
    && 0 <= k && k + |r| <= |s| && r == s[k..k + |r|]
    && (forall i :: 0 <= i < k ==> IsSpace(s[i]))
    && (forall i :: k + |r| <= i < |s| ==> IsSpace(s[i]))
  }

  lemma TrimmedAtWitness(s: string, t: string, r: string)
    requires |t| <= |s| && t == s[|s| - |t|..]
    requires forall i :: 0 <= i < |s| - |t| ==> IsSpace(s[i])
    requires |r| <= |t| && r == t[..|r|]
    requires forall i :: |r| <= i < |t| ==> IsSpace(t[i])
    ensures TrimmedAt(s, r, |s| - |t|)
  {
    var k := |s| - |t|;
    forall i | k + |r| <= i < |s|
      ensures IsSpace(s[i])
    {
      assert s[i] == t[i - k];
    }
  }

  /** `generateSlug(name)`: never longer than the name. */
  function GenerateSlug(name: string): (r: string)
    ensures |r| <= |name|
  {
    Trim(ReplaceRuns(ReplaceRuns(StripDisallowed(ToLower(name)), IsSpace), IsHyphen))
  }

  /** When hyphens count as run characters, the result never has two hyphens in a row. */
  lemma {:induction false} ReplaceRunsNoDoubleHyphen(s: string, p: char -> bool)
    requires p('-')
    ensures NoDoubleHyphen(ReplaceRuns(s, p))
    decreases |s|
  {
    if s != [] {
      if p(s[0]) {
        ReplaceRunsNoDoubleHyphen(SkipRun(s[1..], p), p);
      } else {
        ReplaceRunsNoDoubleHyphen(s[1..], p);
      }
    }
  }

  /** A string without run characters is copied unchanged. */
  lemma {:induction false} ReplaceRunsNone(s: string, p: char -> bool)
    requires forall i :: 0 <= i < |s| ==> !p(s[i])
    ensures ReplaceRuns(s, p) == s
    decreases |s|
  {
    if s != [] {
      ReplaceRunsNone(s[1..], p);
    }
  }

  /** Collapsing hyphen runs leaves a string with single hyphens unchanged. */
  lemma {:induction false} ReplaceRunsSingleHyphens(s: string)
    requires NoDoubleHyphen(s)
    ensures ReplaceRuns(s, IsHyphen) == s
    decreases |s|
  {
    if s != [] {
      ReplaceRunsSingleHyphens(s[1..]);
      if s[0] == '-' {
        assert SkipRun(s[1..], IsHyphen) == s[1..];
      }
    }
  }

  /** Characters that can make up a run are not word characters. */
  ghost predicate RunsHideNoWordChar(p: char -> bool) {
    forall c :: p(c) ==> !IsWordChar(c)
  }

  lemma {:induction false} FilterWordSkipRun(s: string, p: char -> bool)
    requires RunsHideNoWordChar(p)
    ensures Filter(IsWordChar, SkipRun(s, p)) == Filter(IsWordChar, s)
    decreases |s|
  {
    if s != [] && p(s[0]) {
      FilterWordSkipRun(s[1..], p);
    }
  }

  /** Replacing runs keeps the word characters, in order. */
  lemma {:induction false} FilterWordReplaceRuns(s: string, p: char -> bool)
    requires RunsHideNoWordChar(p)
    ensures Filter(IsWordChar, ReplaceRuns(s, p)) == Filter(IsWordChar, s)
    decreases |s|
  {
    if s != [] {
      var r := ReplaceRuns(s, p);
      if p(s[0]) {
        var t := SkipRun(s[1..], p);
        FilterWordReplaceRuns(t, p);
        FilterWordSkipRun(s[1..], p);
        assert r[0] == '-' && r[1..] == ReplaceRuns(t, p);
      } else {
        FilterWordReplaceRuns(s[1..], p);
        assert r[0] == s[0] && r[1..] == ReplaceRuns(s[1..], p);
      }
    }
  }

  lemma {:induction false} FilterWordTrimStart(s: string)
    ensures Filter(IsWordChar, TrimStart(s)) == Filter(IsWordChar, s)
    decreases |s|
  {
    if s != [] && IsSpace(s[0]) {
      FilterWordTrimStart(s[1..]);
    }
  }

  lemma {:induction false} FilterWordTrimEnd(s: string)
    ensures Filter(IsWordChar, TrimEnd(s)) == Filter(IsWordChar, s)
    decreases |s|
  {
    if s != [] && IsSpace(s[|s| - 1]) {
      var init, last := s[..|s| - 1], s[|s| - 1];
      SpaceNotWord(last);
      FilterWordTrimEnd(init);
      SplitLast(s);
      FilterAppend(IsWordChar, init, [last]);
    }
  }

  lemma SpaceNotWord(c: char)
    requires IsSpace(c)
    ensures !IsWordChar(c)
  {
  }

  /** A slug keeps every letter, digit and underscore of the lower-cased
      name, in their order, and adds none. */
  lemma SlugWordChars(name: string)
    ensures Filter(IsWordChar, GenerateSlug(name)) == Filter(IsWordChar, ToLower(name))
  {
    var a := ToLower(name);
    var b := StripDisallowed(a);
    FilterNarrower((c: char) => IsWordChar(c) || IsSpace(c) || c == '-', IsWordChar, a);
    assert RunsHideNoWordChar(IsSpace);
    FilterWordReplaceRuns(b, IsSpace);
    var c := ReplaceRuns(b, IsSpace);
    assert RunsHideNoWordChar(IsHyphen);
    FilterWordReplaceRuns(c, IsHyphen);
    var d := ReplaceRuns(c, IsHyphen);
    FilterWordTrimStart(d);
    FilterWordTrimEnd(TrimStart(d));
  }

  /** Letters, digits and underscores. */
  ghost predicate AllWordChars(s: string) {
    forall i :: 0 <= i < |s| ==> IsWordChar(s[i])
  }

  lemma WordCharNotRun(c: char)
    requires IsWordChar(c)
    ensures !IsSpace(c) && !IsHyphen(c)
  {
  }

  /** Two words separated by any run of whitespace give the lower-cased
      words joined by one hyphen: "Summer  Dress" gives "summer-dress". */
  lemma SlugTwoWords(w1: string, gap: string, w2: string)
    requires w1 != [] && w2 != [] && gap != []
    requires AllWordChars(w1) && AllWordChars(w2)
    requires forall i :: 0 <= i < |gap| ==> IsSpace(gap[i])
    ensures GenerateSlug(w1 + gap + w2) == ToLower(w1) + "-" + ToLower(w2)
  {
    var l1, l2 := ToLower(w1), ToLower(w2);
    TwoWordsStrip(w1, gap, w2);
    TwoWordsSpaces(l1, gap, l2);
    TwoWordsHyphens(l1, l2);
  }

  lemma TwoWordsStrip(w1: string, gap: string, w2: string)
    requires AllWordChars(w1) && AllWordChars(w2)
    requires forall i :: 0 <= i < |gap| ==> IsSpace(gap[i])
    ensures StripDisallowed(ToLower(w1 + gap + w2)) == ToLower(w1) + gap + ToLower(w2)
    ensures AllWordChars(ToLower(w1)) && AllWordChars(ToLower(w2))
  {
    ToLowerAppend(w1 + gap, w2);
    ToLowerAppend(w1, gap);
    ToLowerNoUpper(gap);
    var keep := (c: char) => IsWordChar(c) || IsSpace(c) || c == '-';
    LowerWordsKept(w1);
    LowerWordsKept(w2);
    assert forall x :: x in gap ==> keep(x);
    AllIn3(keep, ToLower(w1), gap, ToLower(w2));
    StripAllKept(ToLower(w1) + gap + ToLower(w2));
  }

  /** A lower-cased word is still made of word characters, all of which the
      strip keeps. */
  lemma LowerWordsKept(w: string)
    requires AllWordChars(w)
    ensures AllWordChars(ToLower(w))
    ensures forall x :: x in ToLower(w) ==> IsWordChar(x) || IsSpace(x) || x == '-'
  {
  }

  /** A string the strip has nothing to remove from is left as it is. */
  lemma StripAllKept(a: string)
    requires forall x :: x in a ==> IsWordChar(x) || IsSpace(x) || x == '-'
    ensures StripDisallowed(a) == a
  {
    FilterAllPass((c: char) => IsWordChar(c) || IsSpace(c) || c == '-', a);
  }

  lemma TwoWordsSpaces(l1: string, gap: string, l2: string)
    requires l2 != [] && gap != []
    requires AllWordChars(l1) && AllWordChars(l2)
    requires forall i :: 0 <= i < |gap| ==> IsSpace(gap[i])
    ensures ReplaceRuns(l1 + gap + l2, IsSpace) == l1 + "-" + l2
  {
    forall i | 0 <= i < |l1| ensures !IsSpace(l1[i]) { WordCharNotRun(l1[i]); }
    forall i | 0 <= i < |l2| ensures !IsSpace(l2[i]) { WordCharNotRun(l2[i]); }
    ConcatAssoc(l1, gap, l2);
    ReplaceRunsPrefixNone(l1, gap + l2, IsSpace);
    ReplaceRunsRunPrefix(gap, l2, IsSpace);
    ReplaceRunsNone(l2, IsSpace);
    ConcatAssoc(l1, "-", l2);
  }

  lemma TwoWordsHyphens(l1: string, l2: string)
    requires l2 != []
    requires AllWordChars(l1) && AllWordChars(l2)
    ensures Trim(ReplaceRuns(l1 + "-" + l2, IsHyphen)) == l1 + "-" + l2
  {
    forall i | 0 <= i < |l1| ensures !IsHyphen(l1[i]) { WordCharNotRun(l1[i]); }
    forall i | 0 <= i < |l2| ensures !IsHyphen(l2[i]) { WordCharNotRun(l2[i]); }
    ConcatAssoc(l1, "-", l2);
    ReplaceRunsPrefixNone(l1, "-" + l2, IsHyphen);
    ReplaceRunsRunPrefix("-", l2, IsHyphen);
    ReplaceRunsNone(l2, IsHyphen);
    JoinedNoSpace(l1, l2);
    TrimNoSpace(l1 + "-" + l2);
  }

  lemma JoinedNoSpace(l1: string, l2: string)
    requires AllWordChars(l1) && AllWordChars(l2)
    ensures forall i :: 0 <= i < |l1 + "-" + l2| ==> !IsSpace((l1 + "-" + l2)[i])
  {
    var b := l1 + "-" + l2;
    forall i | 0 <= i < |b| ensures !IsSpace(b[i]) {
      if i < |l1| {
        assert b[i] == l1[i];
        WordCharNotRun(l1[i]);
      } else if i == |l1| {
        assert b[i] == '-';
      } else {
        assert b[i] == l2[i - |l1| - 1];
        WordCharNotRun(l2[i - |l1| - 1]);
      }
    }
  }

  lemma TrimNoSpace(s: string)
    requires forall i :: 0 <= i < |s| ==> !IsSpace(s[i])
    ensures Trim(s) == s
  {
  }

  /** After lower-casing, the characters the first replace keeps are slug characters or whitespace. */
  lemma StripSlugOrSpace(name: string)
    ensures forall i :: 0 <= i < |StripDisallowed(ToLower(name))| ==>
      IsSlugChar(StripDisallowed(ToLower(name))[i]) || IsSpace(StripDisallowed(ToLower(name))[i])
  {
    var a := ToLower(name);
    var b := StripDisallowed(a);
    forall i | 0 <= i < |b| ensures IsSlugChar(b[i]) || IsSpace(b[i]) {
      assert b[i] in a;
      var k :| 0 <= k < |a| && a[k] == b[i];
      assert a[k] == LowerChar(name[k]);
    }
  }

  /** Replacing runs keeps a string made of slug characters and run characters
      to slug characters alone. */
  lemma ReplaceRunsSlugChars(s: string, p: char -> bool)
    requires forall i :: 0 <= i < |s| ==> IsSlugChar(s[i]) || p(s[i])
    ensures forall i :: 0 <= i < |ReplaceRuns(s, p)| ==> IsSlugChar(ReplaceRuns(s, p)[i])
  {
    var r := ReplaceRuns(s, p);
    ReplaceRunsChars(s, p);
    forall i | 0 <= i < |r| ensures IsSlugChar(r[i]) {
      assert r[i] in r;
      if r[i] != '-' {
        var k :| 0 <= k < |s| && s[k] == r[i];
      }
    }
  }

  /** A slug holds only `[a-z0-9_-]`, so no whitespace, and never two hyphens in a row. */
  lemma SlugShape(name: string)
    ensures var slug := GenerateSlug(name);
      && (forall i :: 0 <= i < |slug| ==> IsSlugChar(slug[i]) && !IsSpace(slug[i]))
      && NoDoubleHyphen(slug)
  {
    var b := StripDisallowed(ToLower(name));
    StripSlugOrSpace(name);
    ReplaceRunsSlugChars(b, IsSpace);
    var c := ReplaceRuns(b, IsSpace);
    ReplaceRunsSlugChars(c, IsHyphen);
    ReplaceRunsNoDoubleHyphen(c, IsHyphen);
    TrimNoSpace(ReplaceRuns(c, IsHyphen));
  }

  /** Deriving a slug from a slug changes nothing. */
  lemma SlugIdempotent(name: string)
    ensures GenerateSlug(GenerateSlug(name)) == GenerateSlug(name)
  {
    var slug := GenerateSlug(name);
    SlugShape(name);
    ToLowerNoUpper(slug);
    FilterAllPass((c: char) => IsWordChar(c) || IsSpace(c) || c == '-', slug);
    ReplaceRunsNone(slug, IsSpace);
    ReplaceRunsSingleHyphens(slug);
    TrimNoSpace(slug);
  }

  /** The final trim finds no whitespace left, so surrounding spaces become
      hyphens at the ends of the slug. */
  lemma SlugKeepsEdgeHyphens()
    ensures GenerateSlug(" A ") == "-a-"
  {
    EdgeStrip();
    EdgeSpaces();
    EdgeHyphens();
  }

  lemma EdgeStrip()
    ensures StripDisallowed(ToLower(" A ")) == " a "
  {
    var a := ToLower(" A ");
    assert a == " a " by {
      assert a[0] == ' ' && a[1] == 'a' && a[2] == ' ';
    }
    StripAllKept(a);
  }

  lemma EdgeSpaces()
    ensures ReplaceRuns(" a ", IsSpace) == "-a-"
  {
    assert IsSpace(' ') && !IsSpace('a');
    EdgeRuns(' ', 'a', IsSpace);
    assert " a " == [' ', 'a', ' '] && "-a-" == ['-', 'a', '-'];
  }

  /** A character between two run characters comes out between two hyphens. */
  lemma EdgeRuns(c: char, x: char, p: char -> bool)
    requires p(c) && !p(x)
    ensures ReplaceRuns([c, x, c], p) == ['-', x, '-']
  {
    ReplaceRunsLoneRun(c, p);
    ReplaceRunsKeep(x, [c], p);
    assert [x] + [c] == [x, c];
    ReplaceRunsRunThen(c, [x, c], p);
    assert [c] + [x, c] == [c, x, c];
  }

  lemma ReplaceRunsKeep(c: char, s: string, p: char -> bool)
    requires !p(c)
    ensures ReplaceRuns([c] + s, p) == [c] + ReplaceRuns(s, p)
  {
    assert ([c] + s)[1..] == s;
  }

  lemma ReplaceRunsLoneRun(c: char, p: char -> bool)
    requires p(c)
    ensures ReplaceRuns([c], p) == "-"
  {
    assert [c][1..] == [];
  }

  lemma ReplaceRunsRunThen(c: char, s: string, p: char -> bool)
    requires p(c) && s != [] && !p(s[0])
    ensures ReplaceRuns([c] + s, p) == "-" + ReplaceRuns(s, p)
  {
    assert ([c] + s)[1..] == s;
  }

  lemma EdgeHyphens()
    ensures Trim(ReplaceRuns("-a-", IsHyphen)) == "-a-"
  {
    assert NoDoubleHyphen("-a-");
    ReplaceRunsSingleHyphens("-a-");
    EdgeTrim();
  }

  lemma EdgeTrim()
    ensures Trim("-a-") == "-a-"
  {
    var d := "-a-";
    assert forall i :: 0 <= i < |d| ==> !IsSpace(d[i]) by {
      assert d[0] == '-' && d[1] == 'a' && d[2] == '-';
    }
    TrimNoSpace(d);
  }

  // ---- the form ----

  /** `productData`: every input is kept as text until submission. */
  datatype ProductForm = ProductForm(
    name: string,
    slug: string,
    description: string,
    price: string,
    compareAtPrice: string,
    costPrice: string,
    sku: string,
    inventoryQuantity: string,
    inventoryThreshold: string,
    categoryId: string,
    status: string,
    isFeatured: bool,
    isNew: bool,
    weight: string,
    dimensions: string)

  const InitialForm: ProductForm :=
    ProductForm("", "", "", "", "", "", "", "0", "5", "", "draft", false, true, "", "")

  datatype FileRef = FileRef(name: string)

  /** One image slot: the chosen file, its preview URL and its alt text. */
  datatype ImageSlot = ImageSlot(file: Option<FileRef>, preview: Option<string>, altText: string)

  const EmptySlot: ImageSlot := ImageSlot(None, None, "")

  /** The form's state. */
  class ProductEditor {
    var productData: ProductForm
    var images: seq<ImageSlot>

    /** There is always at least one image slot. */
    ghost predicate Valid()
      reads this
    {
      |images| >= 1
    }

    constructor ()
      ensures Valid()
      ensures productData == InitialForm && images == [EmptySlot]
    {
      productData := InitialForm;
      images := [EmptySlot];
    }

    /** `handleNameChange`: the name and its slug change together. */
    method HandleNameChange(value: string)
      modifies this
      ensures productData == old(productData).(name := value, slug := GenerateSlug(value))
      ensures images == old(images)
    {
      productData := productData.(name := value, slug := GenerateSlug(value));
    }

    /** `handleImageChange`: choosing no file changes nothing. */
    method HandleImageChange(index: nat, file: Option<FileRef>, preview: string)
      requires Valid() && index < |images|
      modifies this
      ensures Valid() && productData == old(productData)
      ensures file == None ==> images == old(images)
      ensures file != None ==>
        images == old(images)[index := old(images)[index].(file := file, preview := Some(preview))]
    {
      if file == None {
        return;
      }
      images := images[index := images[index].(file := file, preview := Some(preview))];
    }

    method HandleImageAltChange(index: nat, value: string)
      requires Valid() && index < |images|
      modifies this
      ensures Valid() && productData == old(productData)
      ensures images == old(images)[index := old(images)[index].(altText := value)]
    {
      images := images[index := images[index].(altText := value)];
    }

    /** `addImageField`: one more empty slot at the end. */
    method AddImageField()
      requires Valid()
      modifies this
      ensures Valid() && productData == old(productData)
      ensures images == old(images) + [EmptySlot] && |images| == |old(images)| + 1
    {
      images := images + [EmptySlot];
    }

    /** `removeImageField`: the last remaining slot is never removed; otherwise
        exactly the slot at `index` goes and the others keep their order. */
    method RemoveImageField(index: nat)
      requires Valid() && index < |images|
      modifies this
      ensures Valid() && productData == old(productData)
      ensures |old(images)| == 1 ==> images == old(images)
      ensures |old(images)| > 1 ==>
        images == old(images)[..index] + old(images)[index + 1..] && |images| == |old(images)| - 1
    {
      if |images| == 1 {
        return;
      }
      images := images[..index] + images[index + 1..];
    }
  }

  // ---- handleSubmit ----

  /** `fileName.split('.').pop()`: the text after the last '.', or the whole
      name when it has none. */
  function Ext(name: string): (r: string)
    ensures '.' !in r
    decreases |name|
  {
    if name == [] then []
    else if name[|name| - 1] == '.' then []
    else Ext(name[..|name| - 1]) + [name[|name| - 1]]
  }

  /** The extension is the suffix of the name after its last '.'. */
  lemma {:induction false} ExtIsLastPart(name: string)
    ensures var r := Ext(name);
      && |r| <= |name| && r == name[|name| - |r|..]
      && (|r| < |name| ==> name[|name| - |r| - 1] == '.')
    decreases |name|
  {
    if name != [] && name[|name| - 1] != '.' {
      var init := name[..|name| - 1];
      ExtIsLastPart(init);
      var e := Ext(init);
      var k := |name| - 1 - |e|;
      assert init[k..] == name[k..|name| - 1];
      assert name[k..] == name[k..|name| - 1] + [name[|name| - 1]];
    }
  }

  /** The storage path of the `i`-th uploaded image: under `product-images/`,
      and ending in the file's extension after a dot. */
  function ImagePath(productId: string, i: nat, fileName: string): (r: string)
    ensures StartsWith(r, "product-images/")
    ensures |r| > |Ext(fileName)| && r[|r| - |Ext(fileName)| - 1..] == "." + Ext(fileName)
  {
    "product-images/" + productId + "-" + NatToString(i) + "." + Ext(fileName)
  }

  /** The text before the first '.'. */
  function BeforeDot(s: string): (r: string)
    ensures '.' !in r
  {
    if s == [] || s[0] == '.' then [] else [s[0]] + BeforeDot(s[1..])
  }

  /** The text before the first '.' of `d + "." + e` is `d` when `d` has no '.'. */
  lemma {:induction false} BeforeDotOf(d: string, e: string)
    requires '.' !in d
    ensures BeforeDot(d + "." + e) == d
  {
    if d != [] {
      assert (d + "." + e)[1..] == d[1..] + "." + e;
      BeforeDotOf(d[1..], e);
    }
  }

  /** Different positions never share a storage path. */
  lemma ImagePathsDistinct(productId: string, i: nat, j: nat, a: string, b: string)
    requires i != j
    ensures ImagePath(productId, i, a) != ImagePath(productId, j, b)
  {
    var prefix := "product-images/" + productId + "-";
    var di, dj := NatToString(i), NatToString(j);
    var x, y := di + "." + Ext(a), dj + "." + Ext(b);
    assert ImagePath(productId, i, a) == prefix + x;
    assert ImagePath(productId, j, b) == prefix + y;
    if prefix + x == prefix + y {
      assert x == (prefix + x)[|prefix|..];
      assert y == (prefix + y)[|prefix|..];
      assert !IsDigit('.');
      BeforeDotOf(di, Ext(a));
      BeforeDotOf(dj, Ext(b));
      NatToStringInjective(i, j);
    }
  }

  /** `!productData.name || !productData.price` fails this. */
  function HasRequired(form: ProductForm): (r: bool)
    ensures !r <==> |form.name| == 0 || |form.price| == 0
  {
    form.name != "" && form.price != ""
  }

  /** `images.filter(img => img.file)` */
  function ValidImages(images: seq<ImageSlot>): seq<ImageSlot> {
    Filter((img: ImageSlot) => img.file.Some?, images)
  }

  /** The `product_images` row written for an uploaded image; the public URL
      the store derives from the path is not modelled, the path stands for it. */
  datatype ImageRecord = ImageRecord(productId: string, path: string, altText: string, position: nat)

  /** The record for image `i` of the uploaded ones: its path, its alt text
      or else the product name, and position `i`. */
  function RecordFor(productId: string, productName: string, img: ImageSlot, i: nat): (r: ImageRecord)
    requires img.file.Some?
    ensures r.productId == productId && r.position == i
    ensures r.path == ImagePath(productId, i, img.file.value.name)
    ensures img.altText != "" ==> r.altText == img.altText
    ensures r.altText == "" <==> img.altText == "" && productName == ""
  {
    ImageRecord(productId, ImagePath(productId, i, img.file.value.name),
                if img.altText != "" then img.altText else productName, i)
  }

  /** The storage paths of the chosen images, in upload order. */
  function PlannedPaths(productId: string, images: seq<ImageSlot>): (r: seq<string>)
    ensures |r| == |ValidImages(images)|
  {
    var valid := ValidImages(images);
    seq(|valid|, i requires 0 <= i < |valid| => ImagePath(productId, i, valid[i].file.GetOr(FileRef("")).name))
  }

  /** The image records, in upload order. */
  function PlannedRecords(productId: string, productName: string, images: seq<ImageSlot>): (r: seq<ImageRecord>)
    ensures |r| == |ValidImages(images)|
  {
    var valid := ValidImages(images);
    seq(|valid|, i requires 0 <= i < |valid| => RecordFor(productId, productName, valid[i], i))
  }

  /** The `i`-th chosen image has a file; it is uploaded to the path built
      from the product id, `i` and its extension, and recorded at position `i`. */
  lemma PlannedAt(productId: string, productName: string, images: seq<ImageSlot>, i: nat)
    requires i < |ValidImages(images)|
    ensures var img := ValidImages(images)[i];
      && img.file.Some?
      && PlannedPaths(productId, images)[i] == ImagePath(productId, i, img.file.value.name)
      && PlannedRecords(productId, productName, images)[i] == RecordFor(productId, productName, img, i)
  {
    assert ValidImages(images)[i] in images;
  }

  /** No two uploads of one submission go to the same path, and each record
      points at the path its image was uploaded to. */
  lemma PlanConsistent(productId: string, productName: string, images: seq<ImageSlot>)
    ensures var paths := PlannedPaths(productId, images);
      forall i, j :: 0 <= i < j < |paths| ==> paths[i] != paths[j]
    ensures var paths, recs := PlannedPaths(productId, images), PlannedRecords(productId, productName, images);
      forall i :: 0 <= i < |recs| ==> recs[i].path == paths[i] && recs[i].position == i
  {
    var paths := PlannedPaths(productId, images);
    var valid := ValidImages(images);
    forall i, j | 0 <= i < j < |paths|
      ensures paths[i] != paths[j]
    {
      PlannedAt(productId, productName, images, i);
      PlannedAt(productId, productName, images, j);
      ImagePathsDistinct(productId, i, j, valid[i].file.value.name, valid[j].file.value.name);
    }
    var recs := PlannedRecords(productId, productName, images);
    forall i | 0 <= i < |recs|
      ensures recs[i].path == paths[i] && recs[i].position == i
    {
      PlannedAt(productId, productName, images, i);
    }
  }

  /** The first store call that fails, if any. */
  datatype Fault = InsertFault | UploadFault(at: nat) | RecordFault(at: nat)

  datatype SubmitOutcome = MissingRequired | Failed | Created

  /** One more upload and one more record extend the planned prefixes. */
  lemma PlanStep(productId: string, productName: string, images: seq<ImageSlot>, i: nat)
    requires i < |ValidImages(images)|
    ensures var img := ValidImages(images)[i];
      && img.file.Some?
      && PlannedPaths(productId, images)[..i + 1] == PlannedPaths(productId, images)[..i] + [ImagePath(productId, i, img.file.value.name)]
      && PlannedRecords(productId, productName, images)[..i + 1] == PlannedRecords(productId, productName, images)[..i] + [RecordFor(productId, productName, img, i)]
  {
    var paths, recs := PlannedPaths(productId, images), PlannedRecords(productId, productName, images);
    PlannedAt(productId, productName, images, i);
    assert paths[..i + 1] == paths[..i] + [paths[i]];
    assert recs[..i + 1] == recs[..i] + [recs[i]];
  }

  /** The submission stops at image `fault.at` of the `n` uploads. */
  predicate FailsAt(fault: Option<Fault>, n: nat) {
    fault.Some? && !fault.value.InsertFault? && fault.value.at < n
  }

  /** The `for` loop over the chosen images: each is uploaded and then
      recorded, and the first failing call ends the loop. `ok` tells whether
      every image went through. */
  method UploadImages(productId: string, productName: string, images: seq<ImageSlot>, fault: Option<Fault>)
    returns (ok: bool, uploads: seq<string>, records: seq<ImageRecord>)
    ensures |records| <= |uploads| <= |ValidImages(images)|
    ensures uploads == PlannedPaths(productId, images)[..|uploads|]
    ensures records == PlannedRecords(productId, productName, images)[..|records|]
    ensures ok <==> !FailsAt(fault, |ValidImages(images)|)
    ensures ok ==> |uploads| == |ValidImages(images)| && |records| == |ValidImages(images)|
    ensures !ok ==>
      && |records| == fault.value.at
      && |uploads| == fault.value.at + (if fault.value.RecordFault? then 1 else 0)
  {
    uploads, records := [], [];
    var valid := ValidImages(images);
    ghost var paths := PlannedPaths(productId, images);
    ghost var recs := PlannedRecords(productId, productName, images);
    var i := 0;
    while i < |valid|
      invariant 0 <= i <= |valid|
      invariant uploads == paths[..i] && records == recs[..i]
      invariant !FailsAt(fault, i)
    {
      var img := valid[i];
      PlanStep(productId, productName, images, i);
      if fault == Some(UploadFault(i)) {
        return false, uploads, records;
      }
      uploads := uploads + [ImagePath(productId, i, img.file.value.name)];
      if fault == Some(RecordFault(i)) {
        return false, uploads, records;
      }
      records := records + [RecordFor(productId, productName, img, i)];
      i := i + 1;
    }
    assert paths[..i] == paths && recs[..i] == recs;
    ok := true;
  }

  /** `handleSubmit`. Nothing is written without a name and a price; after
      the product row, the chosen images are uploaded and recorded in order,
      and the first failing call ends the submission. */
  method Submit(form: ProductForm, images: seq<ImageSlot>, productId: string, fault: Option<Fault>)
    returns (outcome: SubmitOutcome, inserted: bool, uploads: seq<string>, records: seq<ImageRecord>)
    ensures !HasRequired(form) ==> outcome == MissingRequired && !inserted && uploads == [] && records == []
    ensures HasRequired(form) ==> inserted == (fault != Some(InsertFault))
    ensures fault == Some(InsertFault) ==> outcome != Created && uploads == [] && records == []
    ensures |records| <= |uploads| <= |ValidImages(images)|
    ensures uploads == PlannedPaths(productId, images)[..|uploads|]
    ensures records == PlannedRecords(productId, form.name, images)[..|records|]
    ensures var n := |ValidImages(images)|;
      HasRequired(form) && fault != Some(InsertFault) && !FailsAt(fault, n) ==>
        outcome == Created && |uploads| == n && |records| == n
    ensures FailsAt(fault, |ValidImages(images)|) && HasRequired(form) ==>
      && outcome == Failed
      && |records| == fault.value.at
      && |uploads| == fault.value.at + (if fault.value.RecordFault? then 1 else 0)
  {
    uploads, records := [], [];
    if !HasRequired(form) {
      return MissingRequired, false, uploads, records;
    }
    if fault == Some(InsertFault) {
      return Failed, false, uploads, records;
    }
    inserted := true;
    var ok;
    ok, uploads, records := UploadImages(productId, form.name, images, fault);
    outcome := if ok then Created else Failed;
  }
}
