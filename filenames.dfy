/**
 * The building blocks of the two `sanitizeFilename` functions: dropping the
 * characters outside a class, replacing each run of white space (`/\s+/g`)
 * with one underscore, and keeping the first 100 characters. Every
 * character that survives the class filter lies in the Basic Multilingual
 * Plane, so `substring` counts characters here.
 */
module Filenames {
  import opened Js

  /** `[a-z0-9\-_]` under the `i` flag: ASCII letters of either case, digits,
      hyphen and underscore. */
  predicate IsAsciiNameChar(c: char)
  {
    ('a' <= c <= 'z') || ('A' <= c <= 'Z') || ('0' <= c <= '9') || c == '-' || c == '_'
  }

  /** The range `أ-ي`, U+0623 to U+064A, of the Arabic block. */
  predicate IsArabicLetter(c: char)
  {
    '\U{0623}' <= c <= '\U{064A}'
  }

  /** `s.replace(/[^class]/g, '')`: the characters of `s` in the class, in order. */
  function KeepOnly(s: string, keep: char -> bool): (r: string)
    ensures |r| <= |s|
    ensures forall k :: 0 <= k < |r| ==> keep(r[k])
    ensures (forall k :: 0 <= k < |s| ==> keep(s[k])) ==> r == s
  {
    if s == [] then []
    else
      var rest := KeepOnly(s[1..], keep);
      if keep(s[0]) then [s[0]] + rest else rest
  }

  /** The filter works character by character: filtering a concatenation
      filters each part and concatenates the results. */
  lemma {:induction false} KeepOnlyAppend(a: string, b: string, keep: char -> bool)
    ensures KeepOnly(a + b, keep) == KeepOnly(a, keep) + KeepOnly(b, keep)
  {
    if a == [] {
      assert a + b == b;
    } else {
      assert (a + b)[0] == a[0];
      assert (a + b)[1..] == a[1..] + b;
      KeepOnlyAppend(a[1..], b, keep);
    }
  }

  /** A single character survives exactly when it is in the class. */
  lemma KeepOnlyChar(c: char, keep: char -> bool)
    ensures KeepOnly([c], keep) == if keep(c) then [c] else []
  {
    assert [c][1..] == [];
  }

  /** A character outside the class leaves no trace: the text around it is
      filtered as if it had never been there. */
  lemma KeepOnlyDrops(a: string, c: char, b: string, keep: char -> bool)
    requires !keep(c)
    ensures KeepOnly(a + [c] + b, keep) == KeepOnly(a + b, keep)
  {
    KeepOnlyAppend(a + [c], b, keep);
    KeepOnlyAppend(a, [c], keep);
    KeepOnlyAppend(a, b, keep);
    KeepOnlyChar(c, keep);
    assert KeepOnly(a, keep) + [] == KeepOnly(a, keep);
  }

  /** The length of the white-space run that starts `s`. */
  function RunLength(s: string): (n: nat)
    ensures n <= |s| && AllWhitespace(s[..n])
    ensures n < |s| ==> !IsWhitespace(s[n])
  {
    if s == [] || !IsWhitespace(s[0]) then 0
    else
      var n := RunLength(s[1..]);
      assert s[..n + 1] == [s[0]] + s[1..][..n];
      n + 1
  }

  /** `s.replace(/\s+/g, '_')`: scanning left to right, each maximal run of
      white space becomes one underscore. */
  function CollapseWhitespace(s: string): (r: string)
    decreases |s|
    ensures |r| <= |s|
    ensures forall k :: 0 <= k < |r| ==> !IsWhitespace(r[k])
    ensures forall k :: 0 <= k < |r| ==> r[k] == '_' || r[k] in s
  {
    if s == [] then []
    else if IsWhitespace(s[0]) then
      var rest := CollapseWhitespace(s[RunLength(s)..]);
      "_" + rest
    else
      var rest := CollapseWhitespace(s[1..]);
      [s[0]] + rest
  }

  /** `s.substring(0, n)` */
  function Truncate(s: string, n: nat): (r: string)
    ensures |r| <= n && r <= s
    ensures |s| <= n ==> r == s
    ensures |s| > n ==> r == s[..n]
  {
    if |s| <= n then s else s[..n]
  }

  /** A run of white space followed by text that does not start with white
      space collapses to a single underscore before that text. */
  lemma CollapseRun(w: string, s: string)
    requires w != [] && AllWhitespace(w)
    requires s == [] || !IsWhitespace(s[0])
    ensures CollapseWhitespace(w + s) == "_" + CollapseWhitespace(s)
  {
    var t := w + s;
    RunOfWhitespacePrefix(w, s);
    assert t[|w|..] == s;
  }

  lemma {:induction false} RunOfWhitespacePrefix(w: string, s: string)
    requires AllWhitespace(w)
    requires s == [] || !IsWhitespace(s[0])
    ensures RunLength(w + s) == |w|
  {
    if w == [] {
      assert w + s == s;
    } else {
      assert (w + s)[1..] == w[1..] + s;
      RunOfWhitespacePrefix(w[1..], s);
    }
  }

  /** Text without white space passes through unchanged. */
  lemma {:induction false} CollapseKeepsPlainText(a: string, s: string)
    requires forall k :: 0 <= k < |a| ==> !IsWhitespace(a[k])
    ensures CollapseWhitespace(a + s) == a + CollapseWhitespace(s)
  {
    if a != [] {
      assert (a + s)[0] == a[0];
      assert (a + s)[1..] == a[1..] + s;
      CollapseKeepsPlainText(a[1..], s);
    } else {
      assert a + s == s;
    }
  }

  /** A name without white space is its own collapse. */
  lemma CollapseIdentity(s: string)
    requires forall k :: 0 <= k < |s| ==> !IsWhitespace(s[k])
    ensures CollapseWhitespace(s) == s
  {
    CollapseKeepsPlainText(s, []);
    assert s + [] == s;
  }

  /** The characters the first step of the pipeline lets through: those of
      the class and white space. */
  function Survives(keep: char -> bool): char -> bool
  {
    c => keep(c) || IsWhitespace(c)
  }

  /** The common pipeline: drop what is neither in the class nor white
      space, collapse white space runs, keep 100 characters. */
  function Sanitize(s: string, keep: char -> bool): (r: string)
    requires forall c :: keep(c) ==> !IsWhitespace(c)
    requires keep('_')
    ensures |r| <= 100
    ensures forall k :: 0 <= k < |r| ==> keep(r[k])
  {
    var filtered := KeepOnly(s, Survives(keep));
    var collapsed := CollapseWhitespace(filtered);
    assert forall k :: 0 <= k < |collapsed| ==> keep(collapsed[k]) by {
      forall k | 0 <= k < |collapsed| ensures keep(collapsed[k]) {
        if collapsed[k] != '_' {
          var j :| 0 <= j < |filtered| && filtered[j] == collapsed[k];
        }
      }
    }
    var r := Truncate(collapsed, 100);
    assert forall k :: 0 <= k < |r| ==> r[k] == collapsed[k];
    r
  }

  /** Sanitizing a sanitized name changes nothing. */
  lemma SanitizeIdempotent(s: string, keep: char -> bool)
    requires forall c :: keep(c) ==> !IsWhitespace(c)
    requires keep('_')
    ensures Sanitize(Sanitize(s, keep), keep) == Sanitize(s, keep)
  {
    var once := Sanitize(s, keep);
    assert KeepOnly(once, Survives(keep)) == once;
    CollapseIdentity(once);
  }

  /** A name made only of kept characters and white space is only collapsed
      (and cut to 100 characters). */
  lemma SanitizePlain(s: string, keep: char -> bool)
    requires forall c :: keep(c) ==> !IsWhitespace(c)
    requires keep('_')
    requires forall k :: 0 <= k < |s| ==> keep(s[k]) || IsWhitespace(s[k])
    ensures Sanitize(s, keep) == Truncate(CollapseWhitespace(s), 100)
  {
    assert KeepOnly(s, Survives(keep)) == s;
  }

  /** Every title sanitizes as the text of its surviving characters does,
      and that text is only collapsed and cut (as `SanitizePlain` states). */
  lemma SanitizeFiltered(s: string, keep: char -> bool)
    requires forall c :: keep(c) ==> !IsWhitespace(c)
    requires keep('_')
    ensures var t := KeepOnly(s, Survives(keep));
      && (forall k :: 0 <= k < |t| ==> keep(t[k]) || IsWhitespace(t[k]))
      && Sanitize(s, keep) == Sanitize(t, keep)
  {
    var t := KeepOnly(s, Survives(keep));
    assert forall k :: 0 <= k < |t| ==> Survives(keep)(t[k]);
    SanitizePlain(t, keep);
  }

  /** A character that is neither in the class nor white space leaves no
      trace in the sanitized name. */
  lemma SanitizeDrops(a: string, c: char, b: string, keep: char -> bool)
    requires forall c :: keep(c) ==> !IsWhitespace(c)
    requires keep('_')
    requires !keep(c) && !IsWhitespace(c)
    ensures Sanitize(a + [c] + b, keep) == Sanitize(a + b, keep)
  {
    KeepOnlyDrops(a, c, b, Survives(keep));
  }
}
