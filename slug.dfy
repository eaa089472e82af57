/** `slugify`: lower-case, drop every character other than word characters, white space and
    hyphens, trim, turn each run of white space into one hyphen, then squeeze runs of hyphens. */
module Slug {
  import opened Text

  /** Characters `/[^\w\s-]/g` leaves in place. */
  predicate Kept(c: char) { IsWordChar(c) || IsSpace(c) || c == '-' }

  predicate IsDash(c: char) { c == '-' }

  /** The alphabet of a slug. */
  predicate SlugChar(c: char) { IsLower(c) || IsDigit(c) || c == '_' || c == '-' }

  predicate NoDoubleDash(s: string) {
    forall i :: 0 <= i < |s| - 1 ==> !(s[i] == '-' && s[i + 1] == '-')
  }

  /** A string that `slugify` can return. */
  predicate IsSlug(s: string) {
    (forall i :: 0 <= i < |s| ==> SlugChar(s[i])) && NoDoubleDash(s)
  }

  /** `replace(/[^\w\s-]/g, '')`. */
  function RemoveUnkept(s: string): (r: string)
    ensures |r| <= |s|
    ensures forall i :: 0 <= i < |r| ==> r[i] in s && Kept(r[i])
    ensures forall i :: 0 <= i < |s| && Kept(s[i]) ==> s[i] in r
  {
    if s == [] then []
    else
      assert forall i :: 1 <= i < |s| ==> s[i] == s[1..][i - 1];
      (if Kept(s[0]) then [s[0]] else []) + RemoveUnkept(s[1..])
  }

  /** The longest suffix of `s` that does not start with a character satisfying `p`. */
  function DropWhile(s: string, p: char -> bool): (r: string)
    ensures |r| <= |s|
    ensures r != [] ==> !p(r[0]) && r[|r| - 1] == s[|s| - 1]
    ensures r == [] ==> forall i :: 0 <= i < |s| ==> p(s[i])
    ensures forall i :: 0 <= i < |r| ==> r[i] in s
  {
    if s != [] && p(s[0]) then DropWhile(s[1..], p) else s
  }

  /** Replaces every maximal run of characters satisfying `p` by the single character `sep`,
      as `replace(/<class>+/g, sep)` does. */
  function CollapseRuns(s: string, p: char -> bool, sep: char): (r: string)
    ensures s == [] <==> r == []
    ensures s != [] ==> r[0] == (if p(s[0]) then sep else s[0])
    ensures s != [] ==> r[|r| - 1] == (if p(s[|s| - 1]) then sep else s[|s| - 1])
    ensures forall i :: 0 <= i < |r| ==> r[i] == sep || (r[i] in s && !p(r[i]))
    decreases |s|
  {
    if s == [] then []
    else if p(s[0]) then [sep] + CollapseRuns(DropWhile(s[1..], p), p, sep)
    else [s[0]] + CollapseRuns(s[1..], p, sep)
  }

  /** `replace(/\s+/g, '-')` then `replace(/-+/g, '-')`. */
  function Squash(s: string): string {
    CollapseRuns(CollapseRuns(s, IsSpace, '-'), IsDash, '-')
  }

  /** `slugify(name)`; the NFKD normalisation step is the identity on the characters this model
      lower-cases. */
  function Slugify(name: string): (r: string)
    ensures IsSlug(r)
  {
    StepsMakeSlug(ToLower(name));
    Squash(Trim(RemoveUnkept(ToLower(name))))
  }

  // ---------- the alphabet ----------

  lemma TrimKeepsChars(s: string)
    ensures forall i :: 0 <= i < |Trim(s)| ==> Trim(s)[i] in s
  {
    TrimStartIsSuffix(s);
    TrimEndIsPrefix(TrimStart(s));
  }

  lemma {:induction false} TrimStartIsSuffix(s: string)
    ensures forall i :: 0 <= i < |TrimStart(s)| ==> TrimStart(s)[i] in s
  {
    if |s| > 0 && IsSpace(s[0]) {
      TrimStartIsSuffix(s[1..]);
    }
  }

  lemma {:induction false} TrimEndIsPrefix(s: string)
    ensures forall i :: 0 <= i < |TrimEnd(s)| ==> TrimEnd(s)[i] in s
  {
    if |s| > 0 && IsSpace(s[|s| - 1]) {
      TrimEndIsPrefix(s[..|s| - 1]);
    }
  }

  /** Once lower-cased, removing, trimming and squashing leaves only lower-case ASCII letters,
      digits, '_' and '-' (in particular no white space and no upper-case letter), and never two
      hyphens in a row. */
  lemma StepsMakeSlug(lowered: string)
    requires forall i :: 0 <= i < |lowered| ==> !IsUpper(lowered[i])
    ensures IsSlug(Squash(Trim(RemoveUnkept(lowered))))
  {
    RemovedLowerIsKept(lowered);
    TrimmedLowerIsKept(RemoveUnkept(lowered));
    SquashMakesSlug(Trim(RemoveUnkept(lowered)));
  }

  lemma TrimmedLowerIsKept(kept: string)
    requires forall i :: 0 <= i < |kept| ==> Kept(kept[i]) && !IsUpper(kept[i])
    ensures forall i :: 0 <= i < |Trim(kept)| ==> Kept(Trim(kept)[i]) && !IsUpper(Trim(kept)[i])
  {
    TrimKeepsChars(kept);
  }

  lemma SquashMakesSlug(trimmed: string)
    requires forall i :: 0 <= i < |trimmed| ==> Kept(trimmed[i]) && !IsUpper(trimmed[i])
    ensures IsSlug(Squash(trimmed))
  {
    var dashed := CollapseRuns(trimmed, IsSpace, '-');
    assert forall i :: 0 <= i < |dashed| ==> SlugChar(dashed[i]);
    CollapseDashesLeavesNoPair(dashed);
  }

  lemma RemovedLowerIsKept(lowered: string)
    requires forall i :: 0 <= i < |lowered| ==> !IsUpper(lowered[i])
    ensures forall i :: 0 <= i < |RemoveUnkept(lowered)| ==> Kept(RemoveUnkept(lowered)[i]) && !IsUpper(RemoveUnkept(lowered)[i])
  {
  }

  // ---------- no double hyphen ----------

  lemma {:induction false} CollapseDashesLeavesNoPair(s: string)
    ensures NoDoubleDash(CollapseRuns(s, IsDash, '-'))
    decreases |s|
  {
    if s != [] {
      var rest := if IsDash(s[0]) then DropWhile(s[1..], IsDash) else s[1..];
      CollapseDashesLeavesNoPair(rest);
      var tail := CollapseRuns(rest, IsDash, '-');
      assert IsDash(s[0]) ==> rest == [] || !IsDash(rest[0]);
      assert IsDash(s[0]) ==> tail == [] || tail[0] != '-';
      assert CollapseRuns(s, IsDash, '-') == [if IsDash(s[0]) then '-' else s[0]] + tail;
    }
  }

  // ---------- idempotence ----------

  lemma {:induction false} RemoveUnkeptKeepsKept(s: string)
    requires forall i :: 0 <= i < |s| ==> Kept(s[i])
    ensures RemoveUnkept(s) == s
  {
    if s != [] {
      RemoveUnkeptKeepsKept(s[1..]);
    }
  }

  lemma {:induction false} CollapseRunsWithoutRun(s: string, p: char -> bool, sep: char)
    requires forall i :: 0 <= i < |s| ==> !p(s[i])
    ensures CollapseRuns(s, p, sep) == s
  {
    if s != [] {
      CollapseRunsWithoutRun(s[1..], p, sep);
    }
  }

  lemma {:induction false} CollapseSingleDashes(s: string)
    requires NoDoubleDash(s)
    ensures CollapseRuns(s, IsDash, '-') == s
  {
    if s != [] {
      assert NoDoubleDash(s[1..]);
      if IsDash(s[0]) {
        assert DropWhile(s[1..], IsDash) == s[1..];
      }
      CollapseSingleDashes(s[1..]);
    }
  }

  /** Every stage after lower-casing leaves a slug as it is. */
  lemma SquashFixesSlug(t: string)
    requires IsSlug(t)
    ensures Squash(Trim(RemoveUnkept(t))) == t
  {
    RemoveUnkeptKeepsKept(t);
    TrimFixesSlug(t);
    CollapseRunsWithoutRun(t, IsSpace, '-');
    CollapseSingleDashes(t);
  }

  lemma TrimFixesSlug(t: string)
    requires IsSlug(t)
    ensures Trim(t) == t
  {
    assert t == [] || !IsSpace(t[0]);
    assert TrimStart(t) == t;
    assert TrimEnd(t) == t;
  }

  /** Word characters and isolated hyphens are kept; ASCII letters are lower-cased. */
  lemma SlugOfWordText(s: string)
    requires forall i :: 0 <= i < |s| ==> IsWordChar(s[i]) || s[i] == '-'
    requires NoDoubleDash(s)
    ensures Slugify(s) == ToLower(s)
  {
    var t := ToLower(s);
    assert forall i :: 0 <= i < |t| ==> SlugChar(t[i]);
    assert NoDoubleDash(t);
    SquashFixesSlug(t);
  }

  // ---------- runs ----------

  lemma {:induction false} DropWhileRun(w: string, b: string, p: char -> bool)
    requires forall i :: 0 <= i < |w| ==> p(w[i])
    requires b == [] || !p(b[0])
    ensures DropWhile(w + b, p) == b
  {
    if w == [] {
      assert w + b == b;
    } else {
      assert (w + b)[0] == w[0];
      assert (w + b)[1..] == w[1..] + b;
      DropWhileRun(w[1..], b, p);
    }
  }

  lemma {:induction false} DropWhileAppend(x: string, y: string, p: char -> bool)
    requires x != [] && !p(x[|x| - 1])
    ensures DropWhile(x + y, p) == DropWhile(x, p) + y
  {
    assert (x + y)[0] == x[0];
    if p(x[0]) {
      assert (x + y)[1..] == x[1..] + y;
      DropWhileAppend(x[1..], y, p);
    }
  }

  lemma Associate(x: string, y: string, z: string)
    ensures x + (y + z) == x + y + z
  {
  }

  /** A run at the head of `a` that ends inside `a` is collapsed the same way whatever follows. */
  lemma CollapseRunHead(a: string, tail: string, p: char -> bool, sep: char)
    requires a != [] && p(a[0]) && !p(a[|a| - 1])
    ensures DropWhile(a[1..], p) != [] && |DropWhile(a[1..], p)| < |a|
    ensures CollapseRuns(a + tail, p, sep) == [sep] + CollapseRuns(DropWhile(a[1..], p) + tail, p, sep)
    ensures CollapseRuns(a, p, sep) == [sep] + CollapseRuns(DropWhile(a[1..], p), p, sep)
  {
    var s := a + tail;
    assert s[0] == a[0];
    assert s[1..] == a[1..] + tail;
    DropWhileAppend(a[1..], tail, p);
  }

  lemma CollapseKeptHead(a: string, tail: string, p: char -> bool, sep: char)
    requires a != [] && !p(a[0])
    ensures CollapseRuns(a + tail, p, sep) == [a[0]] + CollapseRuns(a[1..] + tail, p, sep)
  {
    var s := a + tail;
    assert s[0] == a[0];
    assert s[1..] == a[1..] + tail;
  }

  lemma CollapseRunHeadAppend(a: string, t: string, p: char -> bool, sep: char)
    requires a != [] && p(a[0]) && !p(a[|a| - 1])
    requires CollapseRuns(DropWhile(a[1..], p) + t, p, sep) == CollapseRuns(DropWhile(a[1..], p), p, sep) + CollapseRuns(t, p, sep)
    ensures CollapseRuns(a + t, p, sep) == CollapseRuns(a, p, sep) + CollapseRuns(t, p, sep)
  {
    CollapseRunHead(a, t, p, sep);
    Associate([sep], CollapseRuns(DropWhile(a[1..], p), p, sep), CollapseRuns(t, p, sep));
  }

  /** Collapsing distributes over a concatenation whose left part does not end inside a run. */
  lemma {:induction false} CollapseRunsAppend(a: string, t: string, p: char -> bool, sep: char)
    requires a == [] || !p(a[|a| - 1])
    ensures CollapseRuns(a + t, p, sep) == CollapseRuns(a, p, sep) + CollapseRuns(t, p, sep)
    decreases |a|
  {
    if a == [] {
      assert a + t == t;
    } else if p(a[0]) {
      var rest := DropWhile(a[1..], p);
      assert rest != [] && |rest| < |a| && rest[|rest| - 1] == a[|a| - 1] by {
        CollapseRunHead(a, t, p, sep);
      }
      CollapseRunsAppend(rest, t, p, sep);
      CollapseRunHeadAppend(a, t, p, sep);
    } else {
      CollapseKeptHead(a, t, p, sep);
      CollapseRunsAppend(a[1..], t, p, sep);
      Associate([a[0]], CollapseRuns(a[1..], p, sep), CollapseRuns(t, p, sep));
    }
  }

  lemma CollapseRunFirst(w: string, b: string, p: char -> bool, sep: char)
    requires w != [] && forall i :: 0 <= i < |w| ==> p(w[i])
    requires b == [] || !p(b[0])
    ensures CollapseRuns(w + b, p, sep) == [sep] + CollapseRuns(b, p, sep)
  {
    var s := w + b;
    assert s[0] == w[0];
    assert s[1..] == w[1..] + b;
    DropWhileRun(w[1..], b, p);
  }

  /** A maximal run `w` between `a` and `b` becomes exactly one separator, and the text on either
      side is collapsed on its own. */
  lemma CollapseRunsSplit(a: string, w: string, b: string, p: char -> bool, sep: char)
    requires a == [] || !p(a[|a| - 1])
    requires w != [] && forall i :: 0 <= i < |w| ==> p(w[i])
    requires b == [] || !p(b[0])
    ensures CollapseRuns(a + w + b, p, sep) == CollapseRuns(a, p, sep) + [sep] + CollapseRuns(b, p, sep)
  {
    Associate(a, w, b);
    CollapseRunsAppend(a, w + b, p, sep);
    CollapseRunFirst(w, b, p, sep);
    Associate(CollapseRuns(a, p, sep), [sep], CollapseRuns(b, p, sep));
  }

  /** Two words separated by white space become the two lower-cased words joined by one hyphen. */
  lemma SlugJoinsWords(a: string, w: string, b: string)
    requires a != [] && b != []
    requires forall i :: 0 <= i < |a| ==> IsWordChar(a[i]) || a[i] == '-'
    requires forall i :: 0 <= i < |b| ==> IsWordChar(b[i]) || b[i] == '-'
    requires NoDoubleDash(a) && NoDoubleDash(b)
    requires a[|a| - 1] != '-' && b[0] != '-'
    requires w != [] && AllSpace(w)
    ensures Slugify(a + w + b) == ToLower(a) + "-" + ToLower(b)
  {
    var lowA, lowB := ToLower(a), ToLower(b);
    LowerAroundSpace(a, w, b);
    LowerWordText(a);
    LowerWordText(b);
    JoinedTextIsKept(lowA, w, lowB);
    SpaceRunBetween(lowA, w, lowB);
    assert lowA[|a| - 1] != '-' && lowB[0] != '-';
    DashJoinHasNoPair(lowA, lowB);
    CollapseSingleDashes(lowA + "-" + lowB);
  }

  lemma SlugHasNoSpace(x: string)
    requires IsSlug(x)
    ensures forall i :: 0 <= i < |x| ==> !IsSpace(x[i])
  {
    forall i | 0 <= i < |x|
      ensures !IsSpace(x[i])
    {
      assert SlugChar(x[i]);
    }
  }

  lemma SpaceRunBetween(x: string, w: string, y: string)
    requires x != [] && y != [] && IsSlug(x) && IsSlug(y)
    requires w != [] && AllSpace(w)
    ensures CollapseRuns(x + w + y, IsSpace, '-') == x + "-" + y
  {
    SlugHasNoSpace(x);
    SlugHasNoSpace(y);
    CollapseRunsSplit(x, w, y, IsSpace, '-');
    CollapseRunsWithoutRun(x, IsSpace, '-');
    CollapseRunsWithoutRun(y, IsSpace, '-');
  }

  lemma LowerAroundSpace(a: string, w: string, b: string)
    requires AllSpace(w)
    ensures ToLower(a + w + b) == ToLower(a) + w + ToLower(b)
  {
    ToLowerAppend(a + w, b);
    ToLowerAppend(a, w);
    assert ToLower(w) == w;
  }

  lemma LowerWordText(a: string)
    requires forall i :: 0 <= i < |a| ==> IsWordChar(a[i]) || a[i] == '-'
    requires NoDoubleDash(a)
    ensures IsSlug(ToLower(a))
    ensures forall i :: 0 <= i < |a| ==> (ToLower(a)[i] == '-') == (a[i] == '-')
  {
  }

  lemma JoinedTextIsKept(x: string, w: string, y: string)
    requires x != [] && y != [] && IsSlug(x) && IsSlug(y) && AllSpace(w)
    ensures Trim(RemoveUnkept(x + w + y)) == x + w + y
  {
    var t := x + w + y;
    forall i | 0 <= i < |t|
      ensures Kept(t[i])
    {
      if i < |x| {
        assert t[i] == x[i];
      } else if i < |x| + |w| {
        assert t[i] == w[i - |x|];
      } else {
        assert t[i] == y[i - |x| - |w|];
      }
    }
    RemoveUnkeptKeepsKept(t);
    SlugHasNoSpace(x);
    SlugHasNoSpace(y);
    assert t[0] == x[0] && t[|t| - 1] == y[|y| - 1];
    assert TrimStart(t) == t;
    assert TrimEnd(t) == t;
  }

  lemma DashJoinHasNoPair(x: string, y: string)
    requires x != [] && y != [] && NoDoubleDash(x) && NoDoubleDash(y)
    requires x[|x| - 1] != '-' && y[0] != '-'
    ensures NoDoubleDash(x + "-" + y)
  {
    var u := x + "-" + y;
    forall i | 0 <= i < |u| - 1
      ensures !(u[i] == '-' && u[i + 1] == '-')
    {
      if i < |x| - 1 {
        assert u[i] == x[i] && u[i + 1] == x[i + 1];
      } else if i == |x| - 1 {
        assert u[i] == x[|x| - 1];
      } else if i == |x| {
        assert u[i + 1] == y[0];
      } else {
        assert u[i] == y[i - |x| - 1] && u[i + 1] == y[i - |x|];
      }
    }
  }

  /** `slugify` is idempotent. */
  lemma SlugifyIdempotent(name: string)
    ensures Slugify(Slugify(name)) == Slugify(name)
  {
    var t := Slugify(name);
    assert ToLower(t) == t;
    SquashFixesSlug(t);
  }

  // ---------- the ends ----------

  lemma {:induction false} RemoveUnkeptAppend(a: string, b: string)
    ensures RemoveUnkept(a + b) == RemoveUnkept(a) + RemoveUnkept(b)
  {
    if a == [] {
      assert a + b == b;
    } else {
      assert (a + b)[0] == a[0];
      assert (a + b)[1..] == a[1..] + b;
      RemoveUnkeptAppend(a[1..], b);
    }
  }

  /** A character that ends up neither kept nor white space once lower-cased leaves no trace. */
  predicate Inert(c: char) { IsSpace(c) || !Kept(LowerChar(c)) }

  lemma InertRemovesToSpace(s: string)
    requires forall i :: 0 <= i < |s| ==> Inert(s[i])
    ensures AllSpace(RemoveUnkept(ToLower(s)))
  {
    var r := RemoveUnkept(ToLower(s));
    forall i | 0 <= i < |r|
      ensures IsSpace(r[i])
    {
      assert r[i] in ToLower(s);
    }
  }

  /** Characters that are removed, and white space left at either end after that removal,
      produce no hyphen: `slugify` ignores them. */
  lemma SlugIgnoresOuterInert(pre: string, s: string, post: string)
    requires forall i :: 0 <= i < |pre| ==> Inert(pre[i])
    requires forall i :: 0 <= i < |post| ==> Inert(post[i])
    ensures Slugify(pre + s + post) == Slugify(s)
  {
    ToLowerAppend(pre + s, post);
    ToLowerAppend(pre, s);
    RemoveUnkeptAppend(ToLower(pre) + ToLower(s), ToLower(post));
    RemoveUnkeptAppend(ToLower(pre), ToLower(s));
    InertRemovesToSpace(pre);
    InertRemovesToSpace(post);
    TrimIgnoresOuterSpace(RemoveUnkept(ToLower(pre)), RemoveUnkept(ToLower(s)), RemoveUnkept(ToLower(post)));
  }

  /** A leading hyphen is kept: it is not trimmed. */
  lemma SlugKeepsLeadingDash(name: string)
    requires name != [] && name[0] == '-'
    ensures Slugify(name) != [] && Slugify(name)[0] == '-'
  {
    var lowered := ToLower(name);
    assert lowered == [lowered[0]] + lowered[1..];
    RemoveUnkeptAppend([lowered[0]], lowered[1..]);
    var kept := RemoveUnkept(lowered);
    assert kept[0] == '-';
    TrimKeepsFirst(kept);
  }

  /** A trailing hyphen is kept: it is not trimmed. */
  lemma SlugKeepsTrailingDash(name: string)
    requires name != [] && name[|name| - 1] == '-'
    ensures Slugify(name) != [] && Slugify(name)[|Slugify(name)| - 1] == '-'
  {
    var lowered := ToLower(name);
    var n := |lowered| - 1;
    assert lowered == lowered[..n] + [lowered[n]];
    RemoveUnkeptAppend(lowered[..n], [lowered[n]]);
    var kept := RemoveUnkept(lowered);
    assert kept[|kept| - 1] == '-';
    TrimKeepsLast(kept);
  }
}
