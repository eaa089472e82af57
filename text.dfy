/** Character classes and string operations of JavaScript that the services rely on. */
module Text {

  /** The characters JavaScript's `\s` matches and `String.prototype.trim` removes:
      white space and line terminators. */
  predicate IsSpace(c: char) {
    c == ' ' || c == '\t' || c == '\n' || c == '\U{000B}' || c == '\U{000C}' || c == '\r'
    || c == '\U{00A0}' || c == '\U{1680}' || ('\U{2000}' <= c <= '\U{200A}')
    || c == '\U{2028}' || c == '\U{2029}' || c == '\U{202F}' || c == '\U{205F}'
    || c == '\U{3000}' || c == '\U{FEFF}'
  }

  predicate IsDigit(c: char) { '0' <= c <= '9' }
  predicate IsUpper(c: char) { 'A' <= c <= 'Z' }
  predicate IsLower(c: char) { 'a' <= c <= 'z' }

  /** JavaScript's `\w`: ASCII letters, digits and the underscore. */
  predicate IsWordChar(c: char) { IsUpper(c) || IsLower(c) || IsDigit(c) || c == '_' }

  /** Case mapping of `toLowerCase`, on the ASCII letters. */
  function LowerChar(c: char): (r: char)
    ensures !IsUpper(r)
    ensures IsUpper(c) ==> IsLower(r)
    ensures !IsUpper(c) ==> r == c
  {
    if IsUpper(c) then (c as int + 32) as char else c
  }

  /** Case mapping of `toUpperCase`, on the ASCII letters. */
  function UpperChar(c: char): (r: char)
    ensures !IsLower(r)
    ensures IsLower(c) ==> IsUpper(r)
    ensures !IsLower(c) ==> r == c
  {
    if IsLower(c) then (c as int - 32) as char else c
  }

  function ToLower(s: string): (r: string)
    ensures |r| == |s|
    ensures forall i :: 0 <= i < |s| ==> r[i] == LowerChar(s[i])
  {
    seq(|s|, i requires 0 <= i < |s| => LowerChar(s[i]))
  }

  function ToUpper(s: string): (r: string)
    ensures |r| == |s|
    ensures forall i :: 0 <= i < |s| ==> r[i] == UpperChar(s[i])
  {
    seq(|s|, i requires 0 <= i < |s| => UpperChar(s[i]))
  }

  lemma ToLowerAppend(a: string, b: string)
    ensures ToLower(a + b) == ToLower(a) + ToLower(b)
  {
    assert forall i :: 0 <= i < |a + b| ==> ToLower(a + b)[i] == (ToLower(a) + ToLower(b))[i];
  }

  predicate AllSpace(s: string) { forall i :: 0 <= i < |s| ==> IsSpace(s[i]) }

  function TrimStart(s: string): (r: string)
    ensures |r| <= |s|
    ensures r != [] ==> !IsSpace(r[0])
  {
    if |s| > 0 && IsSpace(s[0]) then TrimStart(s[1..]) else s
  }

  function TrimEnd(s: string): (r: string)
    ensures |r| <= |s|
    ensures r != [] ==> !IsSpace(r[|r| - 1])
  {
    if |s| > 0 && IsSpace(s[|s| - 1]) then TrimEnd(s[..|s| - 1]) else s
  }

  lemma {:induction false} TrimStartSkipsSpace(ws: string, s: string)
    requires AllSpace(ws)
    ensures TrimStart(ws + s) == TrimStart(s)
  {
    if ws == [] {
      assert ws + s == s;
    } else {
      assert (ws + s)[0] == ws[0];
      assert (ws + s)[1..] == ws[1..] + s;
      TrimStartSkipsSpace(ws[1..], s);
    }
  }

  lemma {:induction false} TrimEndSkipsSpace(s: string, ws: string)
    requires AllSpace(ws)
    ensures TrimEnd(s + ws) == TrimEnd(s)
  {
    if ws == [] {
      assert s + ws == s;
    } else {
      var t := s + ws;
      assert t[|t| - 1] == ws[|ws| - 1];
      assert t[..|t| - 1] == s + ws[..|ws| - 1];
      TrimEndSkipsSpace(s, ws[..|ws| - 1]);
    }
  }

  /** Once a non-space character is met, trimming the start no longer reaches what follows. */
  lemma {:induction false} TrimStartAppend(m: string, b: string)
    requires !AllSpace(m)
    ensures TrimStart(m + b) == TrimStart(m) + b
  {
    assert (m + b)[0] == m[0];
    if IsSpace(m[0]) {
      assert (m + b)[1..] == m[1..] + b;
      TrimStartAppend(m[1..], b);
    }
  }

  lemma TrimStartAllSpace(ws: string)
    requires AllSpace(ws)
    ensures TrimStart(ws) == []
  {
    TrimStartSkipsSpace(ws, []);
    assert ws + [] == ws;
  }

  /** `String.prototype.trim`. */
  function Trim(s: string): string { TrimEnd(TrimStart(s)) }

  /** White space around a string is all that `trim` removes from it. */
  lemma TrimIgnoresOuterSpace(pre: string, m: string, post: string)
    requires AllSpace(pre) && AllSpace(post)
    ensures Trim(pre + m + post) == Trim(m)
  {
    assert pre + m + post == pre + (m + post);
    TrimStartSkipsSpace(pre, m + post);
    if AllSpace(m) {
      assert AllSpace(m + post);
      TrimStartAllSpace(m + post);
      TrimStartAllSpace(m);
    } else {
      TrimStartAppend(m, post);
      TrimEndSkipsSpace(TrimStart(m), post);
    }
  }

  /** A string that starts with a non-space character keeps it through `trim`. */
  lemma {:induction false} TrimKeepsFirst(t: string)
    requires t != [] && !IsSpace(t[0])
    ensures Trim(t) != [] && Trim(t)[0] == t[0]
  {
    assert TrimStart(t) == t;
    TrimEndKeepsFirst(t);
  }

  lemma {:induction false} TrimEndKeepsFirst(t: string)
    requires t != [] && !IsSpace(t[0])
    ensures TrimEnd(t) != [] && TrimEnd(t)[0] == t[0]
  {
    if IsSpace(t[|t| - 1]) {
      TrimEndKeepsFirst(t[..|t| - 1]);
    }
  }

  /** A string that ends with a non-space character keeps it through `trim`. */
  lemma TrimKeepsLast(t: string)
    requires t != [] && !IsSpace(t[|t| - 1])
    ensures Trim(t) != [] && Trim(t)[|Trim(t)| - 1] == t[|t| - 1]
  {
    TrimStartKeepsLast(t);
  }

  lemma {:induction false} TrimStartKeepsLast(t: string)
    requires t != [] && !IsSpace(t[|t| - 1])
    ensures TrimStart(t) != [] && TrimStart(t)[|TrimStart(t)| - 1] == t[|t| - 1]
  {
    if IsSpace(t[0]) {
      TrimStartKeepsLast(t[1..]);
    }
  }

  /** Substring test, as `String.prototype.includes`. */
  predicate Contains(hay: string, needle: string) {
    exists i :: 0 <= i <= |hay| - |needle| && OccursAt(hay, needle, i)
  }

  predicate OccursAt(hay: string, needle: string, i: int) {
    0 <= i <= |hay| - |needle| && hay[i..i + |needle|] == needle
  }
}
