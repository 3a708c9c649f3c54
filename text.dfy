/**
 * The .NET string primitives the extractor relies on: `char.IsWhiteSpace`,
 * `string.Trim`, `string.IsNullOrWhiteSpace`, `Regex.Replace(s, @"\s+", " ")`
 * and `string.Replace(old, new)`.
 */
module Text {

  /** `char.IsWhiteSpace`, which is also the class `\s` of .NET regular expressions. */
  predicate IsWhiteSpace(c: char)
  {
    c == ' ' || ('\t' <= c <= '\r') || c == '\U{85}' || c == '\U{A0}' || c == '\U{1680}'
    || ('\U{2000}' <= c <= '\U{200A}') || c == '\U{2028}' || c == '\U{2029}'
    || c == '\U{202F}' || c == '\U{205F}' || c == '\U{3000}'
  }

  /** `string.IsNullOrWhiteSpace` (a modelled string is never null). */
  predicate IsNullOrWhiteSpace(s: string)
  {
    forall i :: 0 <= i < |s| ==> IsWhiteSpace(s[i])
  }

  /** Removes leading white space. */
  function TrimStart(s: string): (r: string)
    ensures |r| <= |s|
  {
    if s != [] && IsWhiteSpace(s[0]) then TrimStart(s[1..]) else s
  }

  /** Removes trailing white space. */
  function TrimEnd(s: string): (r: string)
    ensures |r| <= |s|
  {
    if s != [] && IsWhiteSpace(s[|s| - 1]) then TrimEnd(s[..|s| - 1]) else s
  }

  /** `TrimStart` keeps a suffix of `s` that does not start with white space, and drops only white space. */
  lemma {:induction false} TrimStartSpec(s: string)
    ensures var r := TrimStart(s);
      && r == s[|s| - |r|..]
      && IsNullOrWhiteSpace(s[..|s| - |r|])
      && (r == [] || !IsWhiteSpace(r[0]))
  {
    if s != [] && IsWhiteSpace(s[0]) {
      TrimStartSpec(s[1..]);
      var r := TrimStart(s);
      assert s[..|s| - |r|] == [s[0]] + s[1..][..|s[1..]| - |r|];
    }
  }

  /** `TrimEnd` keeps a prefix of `s` that does not end with white space, and drops only white space. */
  lemma {:induction false} TrimEndSpec(s: string)
    ensures var r := TrimEnd(s);
      && r == s[..|r|]
      && IsNullOrWhiteSpace(s[|r|..])
      && (r == [] || !IsWhiteSpace(r[|r| - 1]))
  {
    if s != [] && IsWhiteSpace(s[|s| - 1]) {
      var init := s[..|s| - 1];
      TrimEndSpec(init);
      var r := TrimEnd(s);
      assert s[|r|..] == init[|r|..] + [s[|s| - 1]];
    }
  }

  /** `string.Trim()`. */
  function Trim(s: string): string
  {
    TrimEnd(TrimStart(s))
  }

  /** `r` is the slice of `s` that starts at `i`. */
  predicate SliceAt(s: string, r: string, i: int)
  {
    0 <= i <= |s| - |r| && r == s[i..i + |r|]
  }

  /** `Trim` removes white space from both ends and nothing else. */
  lemma TrimSpec(s: string)
    ensures var r := Trim(s);
      && (exists i :: SliceAt(s, r, i) && IsNullOrWhiteSpace(s[..i]) && IsNullOrWhiteSpace(s[i + |r|..]))
      && (r == [] || (!IsWhiteSpace(r[0]) && !IsWhiteSpace(r[|r| - 1])))
  {
    var t := TrimStart(s);
    var r := TrimEnd(t);
    TrimStartSpec(s);
    TrimEndSpec(t);
    var i := |s| - |t|;
    assert r == t[..|r|] && t == s[i..];
    assert SliceAt(s, r, i);
    assert s[i + |r|..] == t[|r|..];
    assert r != [] ==> r[0] == t[0];
  }

  /** Trimming yields the empty string exactly when the string is blank. */
  lemma TrimEmptyIffBlank(s: string)
    ensures Trim(s) == [] <==> IsNullOrWhiteSpace(s)
  {
    TrimSpec(s);
    var r := Trim(s);
    var i :| SliceAt(s, r, i) && IsNullOrWhiteSpace(s[..i]) && IsNullOrWhiteSpace(s[i + |r|..]);
    if r == [] {
      assert s == s[..i] + s[i..];
    } else {
      assert s[i] == r[0];
    }
  }

  /**
   * `Regex.Replace(s, @"\s+", " ")`: every maximal run of white space
   * becomes a single ' '.
   */
  function Collapse(s: string): (r: string)
    ensures |r| <= |s|
    ensures Collapsed(r)
    ensures s != [] ==> r != []
    ensures r != [] && s != [] ==> (IsWhiteSpace(r[0]) <==> IsWhiteSpace(s[0]))
    decreases |s|
  {
    if s == [] then []
    else if IsWhiteSpace(s[0]) then
      var rest := TrimStart(s[1..]);
      TrimStartSpec(s[1..]);
      [' '] + Collapse(rest)
    else
      [s[0]] + Collapse(s[1..])
  }

  /** No white space other than ' ', and never two white-space characters in a row. */
  predicate Collapsed(r: string)
  {
    && (forall i :: 0 <= i < |r| && IsWhiteSpace(r[i]) ==> r[i] == ' ')
    && (forall i :: 0 <= i < |r| - 1 ==> !(IsWhiteSpace(r[i]) && IsWhiteSpace(r[i + 1])))
  }

  /** A collapsed string is a fixed point of `Collapse`. */
  lemma {:induction false} CollapseFixesCollapsed(s: string)
    requires Collapsed(s)
    ensures Collapse(s) == s
    decreases |s|
  {
    if s != [] {
      assert Collapsed(s[1..]) by {
        forall i, j | 0 <= i < |s[1..]| && 0 <= j < |s[1..]| && j == i + 1
          ensures !(IsWhiteSpace(s[1..][i]) && IsWhiteSpace(s[1..][j]))
        {
          assert s[1..][i] == s[i + 1] && s[1..][j] == s[j + 1];
        }
      }
      if IsWhiteSpace(s[0]) {
        assert |s| > 1 ==> !IsWhiteSpace(s[1]) && s[1] == s[1..][0];
        assert TrimStart(s[1..]) == s[1..];
        CollapseFixesCollapsed(s[1..]);
      } else {
        CollapseFixesCollapsed(s[1..]);
      }
    }
  }

  /** Whitespace collapsing is idempotent. */
  lemma CollapseIdempotent(s: string)
    ensures Collapse(Collapse(s)) == Collapse(s)
  {
    CollapseFixesCollapsed(Collapse(s));
  }

  /** The non-white-space characters of `s`, in order. */
  function Visible(s: string): (r: string)
    ensures |r| <= |s|
  {
    if s == [] then [] else (if IsWhiteSpace(s[0]) then [] else [s[0]]) + Visible(s[1..])
  }

  lemma {:induction false} VisibleOfBlank(s: string)
    requires IsNullOrWhiteSpace(s)
    ensures Visible(s) == []
  {
    if s != [] {
      VisibleOfBlank(s[1..]);
    }
  }

  lemma {:induction false} VisibleAppend(a: string, b: string)
    ensures Visible(a + b) == Visible(a) + Visible(b)
  {
    if a == [] {
      assert a + b == b;
    } else {
      assert (a + b)[1..] == a[1..] + b;
      VisibleAppend(a[1..], b);
    }
  }

  /** Collapsing changes only white space: the visible characters are kept, in order. */
  lemma {:induction false} CollapseKeepsVisible(s: string)
    ensures Visible(Collapse(s)) == Visible(s)
    decreases |s|
  {
    if s != [] {
      if IsWhiteSpace(s[0]) {
        var rest := TrimStart(s[1..]);
        TrimStartSpec(s[1..]);
        CollapseKeepsVisible(rest);
        assert s[1..] == s[1..][..|s[1..]| - |rest|] + rest;
        VisibleAppend(s[1..][..|s[1..]| - |rest|], rest);
        VisibleOfBlank(s[1..][..|s[1..]| - |rest|]);
        VisibleAppend([' '], Collapse(rest));
      } else {
        CollapseKeepsVisible(s[1..]);
        VisibleAppend([s[0]], Collapse(s[1..]));
      }
    }
  }

  /** A run of white space collapses to exactly one ' '. */
  lemma CollapseBlank(w: string)
    requires w != [] && IsNullOrWhiteSpace(w)
    ensures Collapse(w) == " "
  {
    TrimStartSpec(w[1..]);
  }

  /** Leading white space in front of a string that is not blank is stripped from it alone. */
  lemma {:induction false} TrimStartAppend(a: string, b: string)
    requires !IsNullOrWhiteSpace(a)
    ensures TrimStart(a + b) == TrimStart(a) + b
    decreases |a|
  {
    assert (a + b)[0] == a[0];
    if IsWhiteSpace(a[0]) {
      assert (a + b)[1..] == a[1..] + b;
      assert !IsNullOrWhiteSpace(a[1..]) by {
        var i :| 0 <= i < |a| && !IsWhiteSpace(a[i]);
        assert a[1..][i - 1] == a[i];
      }
      TrimStartAppend(a[1..], b);
    }
  }

  /** `Collapse` on a string that starts with white space: one ' ', then the rest without its leading white space. */
  lemma CollapseConsWhite(c: char, s: string)
    requires IsWhiteSpace(c)
    ensures Collapse([c] + s) == [' '] + Collapse(TrimStart(s))
  {
    assert ([c] + s)[0] == c && ([c] + s)[1..] == s;
  }

  /** `Collapse` on a string that starts with a visible character keeps that character. */
  lemma CollapseConsVisible(c: char, s: string)
    requires !IsWhiteSpace(c)
    ensures Collapse([c] + s) == [c] + Collapse(s)
  {
    assert ([c] + s)[0] == c && ([c] + s)[1..] == s;
  }

  lemma ConcatAssoc(a: string, b: string, c: string)
    ensures a + (b + c) == (a + b) + c
  {
  }

  /** A non-empty string is its first character followed by the rest, also in front of `y`. */
  lemma SplitFirst(x: string, y: string)
    requires x != []
    ensures x == [x[0]] + x[1..] && x + y == [x[0]] + (x[1..] + y)
  {
  }

  /**
   * Collapsing works in place: a string cut after a visible character
   * collapses as its two parts do, so each run is replaced where it stands.
   */
  lemma CollapseAppend(x: string, y: string)
    requires x == [] || !IsWhiteSpace(x[|x| - 1])
    ensures Collapse(x + y) == Collapse(x) + Collapse(y)
    decreases |x|, 2
  {
    if x == [] {
      assert x + y == y;
    } else if IsWhiteSpace(x[0]) {
      CollapseAppendWhite(x, y);
    } else {
      CollapseAppendVisible(x, y);
    }
  }

  /** The step of `CollapseAppend` after a visible first character. */
  lemma CollapseAppendVisible(x: string, y: string)
    requires x != [] && !IsWhiteSpace(x[0]) && !IsWhiteSpace(x[|x| - 1])
    ensures Collapse(x + y) == Collapse(x) + Collapse(y)
    decreases |x|, 1
  {
    var c, tail := x[0], x[1..];
    SplitFirst(x, y);
    CollapseConsVisible(c, tail);
    CollapseConsVisible(c, tail + y);
    CollapseAppend(tail, y);
    ConcatAssoc([c], Collapse(tail), Collapse(y));
  }

  /** The step of `CollapseAppend` after a white-space first character: the run is skipped in `x` alone. */
  lemma CollapseAppendWhite(x: string, y: string)
    requires x != [] && IsWhiteSpace(x[0]) && !IsWhiteSpace(x[|x| - 1])
    ensures Collapse(x + y) == Collapse(x) + Collapse(y)
    decreases |x|, 1
  {
    var c, tail := x[0], x[1..];
    SplitFirst(x, y);
    CollapseConsWhite(c, tail);
    CollapseConsWhite(c, tail + y);
    assert tail[|tail| - 1] == x[|x| - 1];
    SkipRun(tail, y);
    CollapseAppend(TrimStart(tail), y);
    ConcatAssoc([' '], Collapse(TrimStart(tail)), Collapse(y));
  }

  /** Leading white space of a string that ends visibly is skipped within it, leaving a string that still ends visibly. */
  lemma SkipRun(tail: string, y: string)
    requires tail != [] && !IsWhiteSpace(tail[|tail| - 1])
    ensures TrimStart(tail + y) == TrimStart(tail) + y
    ensures TrimStart(tail) != [] && !IsWhiteSpace(TrimStart(tail)[|TrimStart(tail)| - 1])
  {
    TrimStartAppend(tail, y);
    TrimStartSpec(tail);
    var rest := TrimStart(tail);
    assert rest[|rest| - 1] == tail[|tail| - 1];
  }

  /** Collapsing keeps a final character that is not white space. */
  lemma {:induction false} CollapseKeepsLast(s: string)
    requires s != [] && !IsWhiteSpace(s[|s| - 1])
    ensures var r := Collapse(s); r != [] && r[|r| - 1] == s[|s| - 1]
    decreases |s|
  {
    if |s| > 1 {
      if IsWhiteSpace(s[0]) {
        var rest := TrimStart(s[1..]);
        TrimStartSpec(s[1..]);
        assert s[1..][|s| - 2] == s[|s| - 1];
        assert rest != [];
        assert rest[|rest| - 1] == s[|s| - 1];
        CollapseKeepsLast(rest);
      } else {
        CollapseKeepsLast(s[1..]);
      }
    }
  }

  /** True when `pat` occurs in `s` at position `i`. */
  predicate OccursAt(s: string, pat: string, i: int)
  {
    0 <= i && i + |pat| <= |s| && s[i..i + |pat|] == pat
  }

  /**
   * `s.Replace(pat, "")`: occurrences of `pat` are found left to right,
   * without overlap, and removed.
   */
  function RemoveAll(s: string, pat: string): (r: string)
    requires pat != []
    ensures |r| <= |s|
    ensures r != [] && s != [] && s[0] != pat[0] ==> r[0] == s[0]
    ensures s != [] && s[0] != pat[0] ==> r != []
    decreases |s|
  {
    if |s| < |pat| then s
    else if s[..|pat|] == pat then RemoveAll(s[|pat|..], pat)
    else [s[0]] + RemoveAll(s[1..], pat)
  }

  /** Where `pat` does not occur, `RemoveAll` changes nothing. */
  lemma {:induction false} RemoveAllAbsent(s: string, pat: string)
    requires pat != []
    requires forall i :: !OccursAt(s, pat, i)
    ensures RemoveAll(s, pat) == s
    decreases |s|
  {
    if |s| >= |pat| {
      assert !OccursAt(s, pat, 0);
      assert forall i :: !OccursAt(s[1..], pat, i) by {
        forall i | OccursAt(s[1..], pat, i) ensures false {
          assert s[1..][i..i + |pat|] == s[i + 1..i + 1 + |pat|];
          assert OccursAt(s, pat, i + 1);
        }
      }
      RemoveAllAbsent(s[1..], pat);
    }
  }

  /** A single-character pattern never survives `RemoveAll`. */
  lemma {:induction false} RemoveAllChar(s: string, c: char)
    ensures c !in RemoveAll(s, [c])
    decreases |s|
  {
    if s != [] {
      RemoveAllChar(s[1..], c);
    }
  }

  /**
   * Removal of the entity artifact is not idempotent: deleting one
   * occurrence can join the two halves of another, so that
   * `" &nb" + " &nbsp;" + "sp;"` becomes `" &nbsp;"`, which a second
   * removal would delete.
   */
  lemma RemoveAllNotIdempotent()
    ensures var pat := " &nbsp;"; RemoveAll(pat[..4] + pat + pat[4..], pat) == pat
    ensures RemoveAll(" &nbsp;", " &nbsp;") == ""
  {
    var pat := " &nbsp;";
    var s := pat[..4] + pat + pat[4..];
    assert s[4..] == pat + pat[4..];
    RemoveAllSkip(s[4..], pat);
    assert s[4..][7..] == pat[4..];
    var r := RemoveAll(s[4..], pat);
    assert r == pat[4..];
    RemoveAllKeep(s[3..], pat);
    assert s[3..][1..] == s[4..];
    RemoveAllKeep(s[2..], pat);
    assert s[2..][1..] == s[3..];
    RemoveAllKeep(s[1..], pat);
    assert s[1..][1..] == s[2..];
    assert s[..7] != pat by { assert s[..7][4] != pat[4]; }
    assert RemoveAll(s, pat) == [s[0]] + ([s[1]] + ([s[2]] + ([s[3]] + r)));
    assert [s[0]] + ([s[1]] + ([s[2]] + ([s[3]] + r))) == pat[..4] + pat[4..];
    assert pat[..4] + pat[4..] == pat;
    RemoveAllSkip(pat, pat);
    assert pat[7..] == [];
  }

  /** A text that starts with `pat` loses that occurrence. */
  lemma RemoveAllSkip(s: string, pat: string)
    requires pat != [] && |s| >= |pat| && s[..|pat|] == pat
    ensures RemoveAll(s, pat) == RemoveAll(s[|pat|..], pat)
  {
  }

  /** A text that does not start with `pat`'s first character keeps that character. */
  lemma RemoveAllKeep(s: string, pat: string)
    requires pat != [] && |s| >= |pat| && s[0] != pat[0]
    ensures RemoveAll(s, pat) == [s[0]] + RemoveAll(s[1..], pat)
  {
    assert s[..|pat|][0] != pat[0];
  }

  /** `s.Replace(a, b)` for one-character strings `a` and `b`. */
  function ReplaceChar(s: string, a: char, b: char): (r: string)
    ensures |r| == |s|
    ensures forall i :: 0 <= i < |s| ==> r[i] == (if s[i] == a then b else s[i])
  {
    if s == [] then [] else [if s[0] == a then b else s[0]] + ReplaceChar(s[1..], a, b)
  }
}
