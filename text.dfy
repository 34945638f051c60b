/**
 * The JavaScript string built-ins the validator relies on:
 * `String.prototype.trim` and `String.prototype.split` with a one-character separator.
 */
module Text {

  /**
   * The code points `trim` strips: ECMAScript WhiteSpace (TAB, VT, FF, ZWNBSP and the
   * Unicode space separators) and LineTerminator (LF, CR, LS, PS).
   */
  predicate IsWs(c: char) {
    c == '\t' || c == '\U{000B}' || c == '\U{000C}' || c == ' ' || c == '\U{00A0}'
    || c == '\U{FEFF}' || c == '\U{1680}' || ('\U{2000}' <= c <= '\U{200A}')
    || c == '\U{202F}' || c == '\U{205F}' || c == '\U{3000}'
    || c == '\n' || c == '\r' || c == '\U{2028}' || c == '\U{2029}'
  }

  predicate AllWs(s: string) {
    forall i :: 0 <= i < |s| ==> IsWs(s[i])
  }

  /** Neither end of `s` is a whitespace code point. */
  predicate Trimmed(s: string) {
    s == [] || (!IsWs(s[0]) && !IsWs(s[|s| - 1]))
  }

  /** Drops the leading whitespace (properties in TrimStartSpec). */
  function TrimStart(s: string): string
    decreases |s|
  {
    if s != [] && IsWs(s[0]) then TrimStart(s[1..]) else s
  }

  /** Drops the trailing whitespace (properties in TrimEndSpec). */
  function TrimEnd(s: string): string
    decreases |s|
  {
    if s != [] && IsWs(s[|s| - 1]) then TrimEnd(s[..|s| - 1]) else s
  }

  /** `s.trim()`: both ends stripped (properties in TrimSpec). */
  function Trim(s: string): string {
    TrimEnd(TrimStart(s))
  }

  /** TrimStart gives the suffix of `s` that starts at its first non-whitespace code point. */
  lemma {:induction false} TrimStartSpec(s: string)
    ensures var r := TrimStart(s);
      |r| <= |s| && r == s[|s| - |r|..] && AllWs(s[..|s| - |r|]) && (r == [] || !IsWs(r[0]))
    decreases |s|
  {
    if s != [] && IsWs(s[0]) {
      TrimStartSpec(s[1..]);
      var r := TrimStart(s[1..]);
      assert s[..|s| - |r|] == [s[0]] + s[1..][..|s| - 1 - |r|];
    }
  }

  /** TrimEnd gives the prefix of `s` that ends at its last non-whitespace code point. */
  lemma {:induction false} TrimEndSpec(s: string)
    ensures var r := TrimEnd(s);
      |r| <= |s| && r == s[..|r|] && AllWs(s[|r|..]) && (r == [] || !IsWs(r[|r| - 1]))
    decreases |s|
  {
    if s != [] && IsWs(s[|s| - 1]) {
      TrimEndSpec(s[..|s| - 1]);
      var r := TrimEnd(s[..|s| - 1]);
      assert s[|r|..] == s[..|s| - 1][|r|..] + [s[|s| - 1]];
    }
  }

  /**
   * What `trim` promises: the result has no whitespace at either end, is empty exactly
   * when `s` is all whitespace, and keeps only code points of `s`.
   */
  lemma TrimSpec(s: string)
    ensures |Trim(s)| <= |s|
    ensures Trimmed(Trim(s))
    ensures Trim(s) == [] <==> AllWs(s)
    ensures forall c :: c in Trim(s) ==> c in s
  {
    var t := TrimStart(s);
    TrimStartSpec(s);
    TrimEndSpec(t);
    var r := TrimEnd(t);
    assert r != [] ==> r[0] == t[0];
    assert t == [] ==> s == s[..|s| - |t|];
    assert forall c :: c in r ==> c in t;
  }

  lemma TrimOfTrimmed(s: string)
    requires Trimmed(s)
    ensures Trim(s) == s
  {
  }

  lemma TrimIdempotent(s: string)
    ensures Trim(Trim(s)) == Trim(s)
  {
    TrimSpec(s);
    TrimOfTrimmed(Trim(s));
  }

  lemma {:induction false} TrimStartPadding(w: string, s: string)
    requires AllWs(w)
    ensures TrimStart(w + s) == TrimStart(s)
    decreases |w|
  {
    if w != [] {
      assert (w + s)[1..] == w[1..] + s;
      assert IsWs((w + s)[0]);
      TrimStartPadding(w[1..], s);
    } else {
      assert w + s == s;
    }
  }

  lemma {:induction false} TrimEndPadding(s: string, w: string)
    requires AllWs(w)
    ensures TrimEnd(s + w) == TrimEnd(s)
    decreases |w|
  {
    if w != [] {
      assert (s + w)[..|s + w| - 1] == s + w[..|w| - 1];
      TrimEndPadding(s, w[..|w| - 1]);
    } else {
      assert s + w == s;
    }
  }

  /** Whitespace added at either end does not change the trimmed value. */
  lemma TrimPadding(w1: string, s: string, w2: string)
    requires AllWs(w1) && AllWs(w2)
    ensures Trim(w1 + s + w2) == Trim(s)
  {
    assert w1 + s + w2 == w1 + (s + w2);
    TrimStartPadding(w1, s + w2);
    var t := TrimStart(s);
    TrimStartSpec(s);
    if t == [] {
      assert AllWs(s + w2) by {
        assert s == s[..|s|];
      }
      TrimSpec(s + w2);
    } else {
      assert s == s[..|s| - |t|] + t;
      assert s + w2 == s[..|s| - |t|] + (t + w2);
      TrimStartPadding(s[..|s| - |t|], t + w2);
      assert TrimStart(t + w2) == t + w2;
      TrimEndPadding(t, w2);
    }
  }

  /** Trim is determined by its contract: padding a trimmed string with whitespace and trimming gives it back. */
  lemma TrimCharacterization(w1: string, t: string, w2: string)
    requires AllWs(w1) && AllWs(w2) && Trimmed(t)
    ensures Trim(w1 + t + w2) == t
  {
    TrimPadding(w1, t, w2);
    TrimOfTrimmed(t);
  }

  /** `parts.join(sep)`. */
  function Join(parts: seq<string>, sep: char): string
    requires |parts| >= 1
  {
    if |parts| == 1 then parts[0] else parts[0] + [sep] + Join(parts[1..], sep)
  }

  /**
   * `s.split(sep)`: the maximal pieces between occurrences of `sep`, in order, empty
   * pieces included. There is always at least one piece, no piece contains `sep`,
   * and joining the pieces with `sep` gives `s` back.
   */
  function Split(s: string, sep: char): (r: seq<string>)
    ensures |r| >= 1
    ensures forall i :: 0 <= i < |r| ==> sep !in r[i]
    ensures Join(r, sep) == s
    decreases |s|
  {
    if s == [] then
      [[]]
    else
      var rest := Split(s[1..], sep);
      if s[0] == sep then
        assert s == [sep] + s[1..];
        [[]] + rest
      else
        var r := [[s[0]] + rest[0]] + rest[1..];
        assert r[1..] == rest[1..];
        r
  }

  lemma {:induction false} SplitWithoutSep(s: string, sep: char)
    requires sep !in s
    ensures Split(s, sep) == [s]
    decreases |s|
  {
    if s != [] {
      SplitWithoutSep(s[1..], sep);
      assert [s[0]] + s[1..] == s;
    }
  }

  /** A first piece without `sep`, then `sep`: the split starts with that piece. */
  lemma {:induction false} SplitPrepend(h: string, sep: char, body: string)
    requires sep !in h
    ensures Split(h + [sep] + body, sep) == [h] + Split(body, sep)
    decreases |h|
  {
    var s := h + [sep] + body;
    if h == [] {
      assert s[1..] == body;
    } else {
      assert s[1..] == h[1..] + [sep] + body;
      SplitPrepend(h[1..], sep, body);
      assert [h[0]] + h[1..] == h;
    }
  }

  /** Split is the inverse of Join on pieces that do not contain the separator. */
  lemma {:induction false} SplitOfJoin(parts: seq<string>, sep: char)
    requires |parts| >= 1
    requires forall i :: 0 <= i < |parts| ==> sep !in parts[i]
    ensures Split(Join(parts, sep), sep) == parts
    decreases |parts|
  {
    if |parts| == 1 {
      SplitWithoutSep(parts[0], sep);
    } else {
      SplitOfJoin(parts[1..], sep);
      SplitPrepend(parts[0], sep, Join(parts[1..], sep));
      assert [parts[0]] + parts[1..] == parts;
    }
  }
}
