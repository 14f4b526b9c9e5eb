/** The string helpers of the utility library: `truncate`,
    `generateMetaDescription`, `capitalize` and `slugify`. */
module StringUtils {
  import opened Text
  import Seqs

  /** The end index `str.slice(0, end)` uses: a negative `end` counts back
      from the end of the string, and both are clamped to the string. */
  function SliceEnd(len: nat, end: int): (e: nat)
    ensures e <= len
  {
    if end < 0 then (if len + end > 0 then len + end else 0)
    else if end < len then end else len
  }

  /** `truncate(str, length)`: the string itself when it is short enough,
      otherwise its first `length` characters and an ellipsis. A negative
      `length` drops that many characters from the end before the ellipsis. */
  function Truncate(s: string, n: int): (r: string)
    ensures |s| <= n ==> r == s
    ensures 0 <= n < |s| ==> r == s[..n] + "..." && |r| == n + 3
    ensures n < 0 ==> |r| >= 3 && r[|r| - 3..] == "..." && r[..|r| - 3] == s[..if |s| + n > 0 then |s| + n else 0]
  {
    if |s| <= n then s else s[..SliceEnd(|s|, n)] + "..."
  }

  /** `generateMetaDescription(description)`: at most 160 characters; a
      longer text keeps its first 157 characters and gets an ellipsis. */
  function MetaDescription(d: string): (r: string)
    ensures |r| <= 160
    ensures |d| <= 160 ==> r == d
    ensures |d| > 160 ==> r == Truncate(d, 157) && |r| == 160 && r[..157] == d[..157]
  {
    if |d| > 160 then d[..157] + "..." else d
  }

  /** `capitalize(str)`: the first character upper-cased and the rest lower-cased. */
  function Capitalize(s: string): (r: string)
    ensures |r| == |s|
    ensures |s| > 0 ==> r[0] == UpperChar(s[0])
    ensures forall i :: 1 <= i < |s| ==> r[i] == LowerChar(s[i])
  {
    if s == [] then "" else [UpperChar(s[0])] + ToLower(s[1..])
  }

  /** Capitalizing twice is capitalizing once. */
  lemma CapitalizeIdempotent(s: string)
    ensures Capitalize(Capitalize(s)) == Capitalize(s)
  {
  }

  /** The characters `slugify` keeps in its second step (`[a-z0-9 -]`). */
  predicate IsSlugSourceChar(c: char) {
    IsAsciiLower(c) || IsDigit(c) || c == ' ' || c == '-'
  }

  /** The letters and digits a slug keeps from its input. */
  predicate IsSlugWordChar(c: char) {
    IsAsciiLower(c) || IsDigit(c)
  }

  /** The characters that separate words in the kept text. */
  predicate IsSlugSeparator(c: char) {
    c == ' ' || c == '-'
  }

  /** The characters a slug is made of. */
  predicate IsSlugChar(c: char) {
    IsAsciiLower(c) || IsDigit(c) || c == '-'
  }

  predicate IsHyphen(c: char) { c == '-' }

  /** No two hyphens are adjacent. */
  predicate NoDoubleHyphen(s: string) {
    forall i :: 0 <= i < |s| - 1 ==> !(s[i] == '-' && s[i + 1] == '-')
  }

  /** What is left after the leading characters satisfying `p`. */
  function DropWhile(s: string, p: char -> bool): (r: string)
    ensures |r| <= |s|
    ensures r != [] ==> !p(r[0])
  {
    if s != [] && p(s[0]) then DropWhile(s[1..], p) else s
  }

  /** What `DropWhile` leaves is a suffix, and everything before it
      satisfies `p`. */
  lemma {:induction false} DropWhileSuffix(s: string, p: char -> bool)
    ensures DropWhile(s, p) == s[|s| - |DropWhile(s, p)|..]
    ensures forall i :: 0 <= i < |s| - |DropWhile(s, p)| ==> p(s[i])
  {
    if s != [] && p(s[0]) {
      DropWhileSuffix(s[1..], p);
    }
  }

  /** What is left before the trailing characters satisfying `p`. */
  function DropWhileEnd(s: string, p: char -> bool): (r: string)
    ensures |r| <= |s| && r == s[..|r|]
    ensures forall i :: |r| <= i < |s| ==> p(s[i])
    ensures r != [] ==> !p(r[|r| - 1])
  {
    if s != [] && p(s[|s| - 1]) then DropWhileEnd(s[..|s| - 1], p) else s
  }

  /** `str.trim()`: without leading and trailing white space. */
  function Trim(s: string): string {
    DropWhileEnd(DropWhile(s, IsJsSpace), IsJsSpace)
  }

  /** `str.replace(/x+/g, "-")` for the character class `p`: every maximal
      run of characters satisfying `p` becomes one hyphen. */
  function CollapseRuns(s: string, p: char -> bool): (r: string)
    ensures forall i :: 0 <= i < |r| ==> r[i] == '-' || (r[i] in s && !p(r[i]))
    ensures s != [] ==> r != [] && r[0] == (if p(s[0]) then '-' else s[0])
    decreases |s|
  {
    if s == [] then []
    else if p(s[0]) then
      DropWhileSuffix(s[1..], p);
      "-" + CollapseRuns(DropWhile(s[1..], p), p)
    else [s[0]] + CollapseRuns(s[1..], p)
  }

  /** `slugify(str)`: lower-case, keep `[a-z0-9 -]`, turn runs of white space
      into a hyphen, merge runs of hyphens, trim. */
  function Slugify(s: string): (r: string)
    ensures forall i :: 0 <= i < |r| ==> IsSlugChar(r[i])
    ensures NoDoubleHyphen(r)
    ensures Seqs.Filter(r, IsSlugWordChar) == Seqs.Filter(ToLower(s), IsSlugWordChar)
  {
    var kept := Seqs.Filter(ToLower(s), IsSlugSourceChar);
    var spaced := CollapseRuns(kept, IsJsSpace);
    var merged := CollapseRuns(spaced, IsHyphen);
    CollapseKeepsNoDoubleHyphen(spaced);
    TrimIsIdentity(merged);
    WordCharsAreNotSeparators();
    Seqs.FilterOfFilter(ToLower(s), IsSlugSourceChar, IsSlugWordChar);
    FilterCollapseRuns(kept, IsJsSpace, IsSlugWordChar);
    FilterCollapseRuns(spaced, IsHyphen, IsSlugWordChar);
    Trim(merged)
  }

  /** No letter or digit is white space or a hyphen. */
  lemma WordCharsAreNotSeparators()
    ensures forall c :: IsSlugWordChar(c) ==> !IsJsSpace(c) && !IsHyphen(c)
  {
  }

  /** Dropping leading characters of class `p` keeps every character of a
      class `q` disjoint from it. */
  lemma {:induction false} FilterDropWhile(s: string, p: char -> bool, q: char -> bool)
    requires forall c :: q(c) ==> !p(c)
    ensures Seqs.Filter(DropWhile(s, p), q) == Seqs.Filter(s, q)
  {
    if s != [] && p(s[0]) {
      FilterDropWhile(s[1..], p, q);
    }
  }

  /** Collapsing runs of class `p` into hyphens keeps, in order, every
      character of a class `q` that excludes both `p` and the hyphen. */
  lemma {:induction false} FilterCollapseRuns(s: string, p: char -> bool, q: char -> bool)
    requires forall c :: q(c) ==> !p(c)
    requires !q('-')
    ensures Seqs.Filter(CollapseRuns(s, p), q) == Seqs.Filter(s, q)
    decreases |s|
  {
    if s != [] {
      var r := CollapseRuns(s, p);
      if p(s[0]) {
        var rest := DropWhile(s[1..], p);
        FilterCollapseRuns(rest, p, q);
        FilterDropWhile(s[1..], p, q);
        assert r == "-" + CollapseRuns(rest, p) && r[1..] == CollapseRuns(rest, p);
      } else {
        FilterCollapseRuns(s[1..], p, q);
        assert r == [s[0]] + CollapseRuns(s[1..], p) && r[1..] == CollapseRuns(s[1..], p);
      }
    }
  }

  /** Merging runs of hyphens leaves no two hyphens adjacent. */
  lemma {:induction false} CollapseKeepsNoDoubleHyphen(s: string)
    ensures NoDoubleHyphen(CollapseRuns(s, IsHyphen))
    decreases |s|
  {
    if s != [] {
      if IsHyphen(s[0]) {
        var rest := DropWhile(s[1..], IsHyphen);
        CollapseKeepsNoDoubleHyphen(rest);
        assert CollapseRuns(s, IsHyphen) == "-" + CollapseRuns(rest, IsHyphen);
      } else {
        CollapseKeepsNoDoubleHyphen(s[1..]);
        assert CollapseRuns(s, IsHyphen) == [s[0]] + CollapseRuns(s[1..], IsHyphen);
      }
    }
  }

  /** A string with no character of the class is left alone. */
  lemma {:induction false} CollapseWithoutRuns(s: string, p: char -> bool)
    requires forall i :: 0 <= i < |s| ==> !p(s[i])
    ensures CollapseRuns(s, p) == s
  {
    if s != [] {
      CollapseWithoutRuns(s[1..], p);
    }
  }

  /** A string without double hyphens is left alone by the hyphen merge. */
  lemma {:induction false} CollapseHyphensIdentity(s: string)
    requires NoDoubleHyphen(s)
    ensures CollapseRuns(s, IsHyphen) == s
  {
    if s != [] {
      var tail := s[1..];
      assert NoDoubleHyphen(tail) by {
        forall i | 0 <= i < |tail| - 1 ensures !(tail[i] == '-' && tail[i + 1] == '-') {
          assert tail[i] == s[i + 1] && tail[i + 1] == s[i + 2];
        }
      }
      CollapseHyphensIdentity(tail);
      if IsHyphen(s[0]) {
        assert tail == [] || !IsHyphen(tail[0]);
        assert DropWhile(tail, IsHyphen) == tail;
        assert CollapseRuns(s, IsHyphen) == "-" + CollapseRuns(tail, IsHyphen);
      } else {
        assert CollapseRuns(s, IsHyphen) == [s[0]] + CollapseRuns(tail, IsHyphen);
      }
      assert s == [s[0]] + tail;
    }
  }

  /** Trimming a string of slug characters changes nothing. */
  lemma TrimIsIdentity(s: string)
    requires forall i :: 0 <= i < |s| ==> IsSlugChar(s[i])
    ensures Trim(s) == s
  {
  }

  /** A string of slug characters without double hyphens is its own slug. */
  lemma SlugifyFixesSlugs(t: string)
    requires forall i :: 0 <= i < |t| ==> IsSlugChar(t[i])
    requires NoDoubleHyphen(t)
    ensures Slugify(t) == t
  {
    assert ToLower(t) == t by {
      assert forall i :: 0 <= i < |t| ==> LowerChar(t[i]) == t[i];
    }
    Seqs.FilterKeepsAll(t, IsSlugSourceChar);
    var kept := Seqs.Filter(ToLower(t), IsSlugSourceChar);
    assert kept == t;
    CollapseWithoutRuns(t, IsJsSpace);
    var spaced := CollapseRuns(kept, IsJsSpace);
    assert spaced == t;
    CollapseHyphensIdentity(t);
    var merged := CollapseRuns(spaced, IsHyphen);
    assert merged == t;
    TrimIsIdentity(t);
  }

  /** A run of `k` hyphens. */
  function Hyphens(k: nat): (r: string)
    ensures |r| == k && forall i :: 0 <= i < k ==> r[i] == '-'
  {
    seq(k, i => '-')
  }

  /** Where `q` holds of every character `p` skips, skipping by `p` first
      does not change what skipping by `q` leaves. */
  lemma {:induction false} DropWhileWithin(s: string, p: char -> bool, q: char -> bool)
    requires forall i :: 0 <= i < |s| && p(s[i]) ==> q(s[i])
    ensures DropWhile(DropWhile(s, p), q) == DropWhile(s, q)
  {
    if s != [] && p(s[0]) {
      DropWhileWithin(s[1..], p, q);
    }
  }

  /** Hyphens in front of a text that does not start with one are skipped. */
  lemma {:induction false} DropHyphens(k: nat, w: string)
    requires w == [] || w[0] != '-'
    ensures DropWhile(Hyphens(k) + w, IsHyphen) == w
  {
    if k > 0 {
      HyphensCons(k - 1);
      assert (Hyphens(k) + w)[1..] == Hyphens(k - 1) + w;
      DropHyphens(k - 1, w);
    } else {
      assert Hyphens(k) + w == w;
    }
  }

  /** Every character is one `slugify` keeps in its second step. */
  predicate AllSlugSource(s: string) {
    forall i :: 0 <= i < |s| ==> IsSlugSourceChar(s[i])
  }

  /** A suffix of kept text is kept text. */
  lemma SuffixIsSlugSource(s: string, v: string)
    requires AllSlugSource(s)
    requires |v| <= |s| && v == s[|s| - |v|..]
    ensures AllSlugSource(v)
  {
    forall i | 0 <= i < |v| ensures IsSlugSourceChar(v[i]) {
      assert v[i] == s[|s| - |v| + i];
    }
  }

  lemma HyphensCons(k: nat)
    ensures Hyphens(k + 1) == "-" + Hyphens(k)
  {
  }

  /** One more hyphen in front of a run of `k` hyphens. */
  lemma HyphensConsAppend(x: string, a: string, k: nat, w: string)
    requires x == "-" + a && a == Hyphens(k) + w
    ensures x == Hyphens(k + 1) + w
  {
    HyphensCons(k);
  }

  /** The only white space left in kept text is the space itself. */
  predicate IsSpace(c: char) { c == ' ' }

  /** On kept text, skipping white space skips spaces. */
  lemma {:induction false} DropSpaces(s: string)
    requires AllSlugSource(s)
    ensures DropWhile(s, IsJsSpace) == DropWhile(s, IsSpace)
  {
    if s != [] && IsSpace(s[0]) {
      SuffixIsSlugSource(s, s[1..]);
      DropSpaces(s[1..]);
    }
  }

  /** On kept text, replacing runs of white space is replacing runs of spaces. */
  lemma {:induction false} CollapseSpaces(s: string)
    requires AllSlugSource(s)
    ensures CollapseRuns(s, IsJsSpace) == CollapseRuns(s, IsSpace)
    decreases |s|
  {
    if s != [] {
      SuffixIsSlugSource(s, s[1..]);
      if IsSpace(s[0]) {
        var rest := DropWhile(s[1..], IsSpace);
        DropSpaces(s[1..]);
        DropWhileSuffix(s[1..], IsSpace);
        SuffixIsSlugSource(s[1..], rest);
        CollapseSpaces(rest);
      } else {
        CollapseSpaces(s[1..]);
      }
    }
  }

  /** A kept text that starts with a separator turns, once its white space
      is replaced, into some hyphens followed by the replacement of what
      comes after the whole run of separators. */
  lemma SeparatorRun(s: string) returns (k: nat)
    requires AllSlugSource(s)
    requires s != [] && IsSlugSeparator(s[0])
    ensures k >= 1
    ensures CollapseRuns(s, IsSpace) == Hyphens(k) + CollapseRuns(DropWhile(s[1..], IsSlugSeparator), IsSpace)
    decreases |s|, 1
  {
    if s[0] == ' ' {
      k := SpaceRun(s);
    } else {
      k := HyphenRun(s);
    }
  }

  /** Two spaces in a row give the same hyphen as one. */
  lemma SpaceSpace(s: string)
    requires |s| >= 2 && s[0] == ' ' && s[1] == ' '
    ensures CollapseRuns(s, IsSpace) == CollapseRuns(s[1..], IsSpace)
  {
    assert DropWhile(s[1..], IsSpace) == DropWhile(s[2..], IsSpace);
    assert s[1..][1..] == s[2..];
  }

  /** A space not followed by a space becomes one hyphen. */
  lemma SpaceAlone(s: string)
    requires s != [] && s[0] == ' ' && (|s| == 1 || s[1] != ' ')
    ensures CollapseRuns(s, IsSpace) == "-" + CollapseRuns(s[1..], IsSpace)
  {
    assert DropWhile(s[1..], IsSpace) == s[1..];
  }

  /** A hyphen is kept as it is by the white-space replacement. */
  lemma HyphenKept(s: string)
    requires s != [] && s[0] == '-'
    ensures CollapseRuns(s, IsSpace) == "-" + CollapseRuns(s[1..], IsSpace)
  {
  }

  /** Skipping separators past a first separator. */
  lemma SkipSeparator(s: string)
    requires s != [] && IsSlugSeparator(s[0])
    ensures DropWhile(s, IsSlugSeparator) == DropWhile(s[1..], IsSlugSeparator)
  {
  }

  /** Skipping separators where there is none. */
  lemma NoSeparator(s: string)
    requires s == [] || !IsSlugSeparator(s[0])
    ensures DropWhile(s, IsSlugSeparator) == s
  {
  }

  /** `SeparatorRun` for a text starting with a space. */
  lemma {:induction false} SpaceRun(s: string) returns (k: nat)
    requires AllSlugSource(s)
    requires s != [] && s[0] == ' '
    ensures k >= 1
    ensures CollapseRuns(s, IsSpace) == Hyphens(k) + CollapseRuns(DropWhile(s[1..], IsSlugSeparator), IsSpace)
    decreases |s|, 0
  {
    var tail := s[1..];
    SuffixIsSlugSource(s, tail);
    if tail != [] && tail[0] == ' ' {
      SpaceSpace(s);
      SkipSeparator(tail);
      k := SpaceRun(tail);
    } else if tail != [] && tail[0] == '-' {
      SpaceAlone(s);
      SkipSeparator(tail);
      var k' := HyphenRun(tail);
      k := k' + 1;
      HyphensConsAppend(CollapseRuns(s, IsSpace), CollapseRuns(tail, IsSpace), k',
        CollapseRuns(DropWhile(tail[1..], IsSlugSeparator), IsSpace));
    } else {
      SpaceAlone(s);
      NoSeparator(tail);
      k := 1;
      assert Hyphens(1) == "-";
    }
  }

  /** `SeparatorRun` for a text starting with a hyphen. */
  lemma {:induction false} HyphenRun(s: string) returns (k: nat)
    requires AllSlugSource(s)
    requires s != [] && s[0] == '-'
    ensures k >= 1
    ensures CollapseRuns(s, IsSpace) == Hyphens(k) + CollapseRuns(DropWhile(s[1..], IsSlugSeparator), IsSpace)
    decreases |s|, 0
  {
    var tail := s[1..];
    SuffixIsSlugSource(s, tail);
    HyphenKept(s);
    if tail != [] && IsSlugSeparator(tail[0]) {
      SkipSeparator(tail);
      var k' := SeparatorRun(tail);
      k := k' + 1;
      HyphensConsAppend(CollapseRuns(s, IsSpace), CollapseRuns(tail, IsSpace), k',
        CollapseRuns(DropWhile(tail[1..], IsSlugSeparator), IsSpace));
    } else {
      NoSeparator(tail);
      k := 1;
      assert Hyphens(1) == "-";
    }
  }

  /** A run of hyphens in front of a text that does not start with one
      merges into a single hyphen. */
  lemma HyphenRunMerges(k: nat, w: string)
    requires k >= 1
    requires w == [] || w[0] != '-'
    ensures CollapseRuns(Hyphens(k) + w, IsHyphen) == "-" + CollapseRuns(w, IsHyphen)
  {
    var x := Hyphens(k) + w;
    assert x[0] == '-';
    assert x[1..] == Hyphens(k - 1) + w;
    DropHyphens(k - 1, w);
  }

  /** Replacing white space by hyphens and then merging runs of hyphens
      merges, in one pass, every run of spaces and hyphens into a single
      hyphen. */
  lemma {:induction false} SeparatorsMerge(s: string)
    requires AllSlugSource(s)
    ensures CollapseRuns(CollapseRuns(s, IsSpace), IsHyphen) == CollapseRuns(s, IsSlugSeparator)
    decreases |s|
  {
    if s != [] {
      SuffixIsSlugSource(s, s[1..]);
      if IsSlugSeparator(s[0]) {
        var u := DropWhile(s[1..], IsSlugSeparator);
        DropWhileSuffix(s[1..], IsSlugSeparator);
        SuffixIsSlugSource(s[1..], u);
        var k := SeparatorRun(s);
        var w := CollapseRuns(u, IsSpace);
        assert w == [] || w[0] == u[0];
        HyphenRunMerges(k, w);
        SeparatorsMerge(u);
        assert CollapseRuns(s, IsSlugSeparator) == "-" + CollapseRuns(u, IsSlugSeparator);
      } else {
        var tail := CollapseRuns(s[1..], IsSpace);
        var spaced := CollapseRuns(s, IsSpace);
        assert spaced == [s[0]] + tail && spaced[1..] == tail;
        SeparatorsMerge(s[1..]);
      }
    }
  }

  /** `slugify` keeps the lower-cased letters, digits, spaces and hyphens of
      its input and replaces every run of spaces and hyphens, including one
      at either end, by a single hyphen. */
  lemma SlugifyMergesSeparators(s: string)
    ensures Slugify(s) == CollapseRuns(Seqs.Filter(ToLower(s), IsSlugSourceChar), IsSlugSeparator)
  {
    var kept := Seqs.Filter(ToLower(s), IsSlugSourceChar);
    var merged := CollapseRuns(CollapseRuns(kept, IsJsSpace), IsHyphen);
    assert AllSlugSource(kept);
    CollapseSpaces(kept);
    SeparatorsMerge(kept);
    CollapseKeepsNoDoubleHyphen(CollapseRuns(kept, IsJsSpace));
    TrimIsIdentity(merged);
  }

  /** The last character of a collapsed text: a hyphen when the text ends
      in the class `p`, otherwise the text's own last character. */
  lemma {:induction false} CollapseRunsLast(s: string, p: char -> bool)
    requires s != []
    ensures CollapseRuns(s, p) != []
    ensures CollapseRuns(s, p)[|CollapseRuns(s, p)| - 1] == if p(s[|s| - 1]) then '-' else s[|s| - 1]
    decreases |s|
  {
    var r := CollapseRuns(s, p);
    if p(s[0]) {
      var rest := DropWhile(s[1..], p);
      DropWhileSuffix(s[1..], p);
      assert r == "-" + CollapseRuns(rest, p);
      if rest != [] {
        CollapseRunsLast(rest, p);
        assert rest[|rest| - 1] == s[|s| - 1];
      } else if |s| > 1 {
        assert p(s[1..][|s| - 2]);
      }
    } else {
      assert r == [s[0]] + CollapseRuns(s[1..], p);
      if |s| > 1 {
        CollapseRunsLast(s[1..], p);
      }
    }
  }

  /** A slug starts with a hyphen exactly when the kept text starts with a
      space or a hyphen, and ends with one exactly when the kept text ends
      with a space or a hyphen: `trim` removes no hyphen. */
  lemma SlugifyEnds(s: string)
    ensures var kept := Seqs.Filter(ToLower(s), IsSlugSourceChar);
      kept != [] ==>
        var r := Slugify(s);
        r != []
        && r[0] == (if IsSlugSeparator(kept[0]) then '-' else kept[0])
        && r[|r| - 1] == (if IsSlugSeparator(kept[|kept| - 1]) then '-' else kept[|kept| - 1])
  {
    var kept := Seqs.Filter(ToLower(s), IsSlugSourceChar);
    SlugifyMergesSeparators(s);
    if kept != [] {
      CollapseRunsLast(kept, IsSlugSeparator);
    }
  }

  /** A slug is its own slug. */
  lemma SlugifyIdempotent(s: string)
    ensures Slugify(Slugify(s)) == Slugify(s)
  {
    SlugifyFixesSlugs(Slugify(s));
  }
}
