/**
 * The JavaScript built-ins the route handlers lean on, with the semantics the
 * ECMAScript language gives them: truthiness and `||` defaults, the white space
 * class used by `\s`, `trim()` and `parseInt`, `String(n)` for integers,
 * `parseInt`, `splice(i, 0, ...)`, `split('\n')[0]`, `replace(c, '')` with a
 * one-character pattern, and `Array.prototype.sort` with a descending
 * comparator.
 */
module Js {

  datatype Option<+T> = None | Some(value: T)
  {
    function GetOr(default: T): T
    {
      if Some? then value else default
    }
  }

  /** An optional string used as a condition: present and non-empty. */
  predicate Truthy(s: Option<string>)
  {
    s.Some? && s.value != ""
  }

  /** `s || fallback` for an optional string. */
  function Or(s: Option<string>, fallback: string): string
  {
    if Truthy(s) then s.value else fallback
  }

  /** `record[key]` on an object literal used as a table: `None` for a key
      the table does not list. */
  function Lookup(table: map<string, string>, key: string): (r: Option<string>)
    ensures r.Some? <==> key in table
    ensures r.Some? ==> r.value == table[key]
  {
    if key in table then Some(table[key]) else None
  }

  /** `t || fallback` for a string that is always present. */
  function OrElse(t: string, fallback: string): string
  {
    if t != "" then t else fallback
  }

  // ---------------------------------------------------------------------------
  // White space

  /** ECMAScript LineTerminator; the regular-expression `.` matches none of these. */
  predicate IsLineTerminator(c: char)
  {
    c == '\n' || c == '\r' || c == '\U{2028}' || c == '\U{2029}'
  }

  /** ECMAScript WhiteSpace or LineTerminator: the class `\s`, and what `trim()`
      and `parseInt` skip. */
  predicate IsWhitespace(c: char)
  {
    || c == '\t' || c == '\U{000B}' || c == '\U{000C}' || c == ' '
    || c == '\U{00A0}' || c == '\U{FEFF}' || c == '\U{1680}'
    || ('\U{2000}' <= c <= '\U{200A}')
    || c == '\U{202F}' || c == '\U{205F}' || c == '\U{3000}'
    || IsLineTerminator(c)
  }

  predicate AllWhitespace(s: string)
  {
    forall k :: 0 <= k < |s| ==> IsWhitespace(s[k])
  }

  /** Drops the leading white space: what remains is a suffix of `s` that does
      not start with white space, and everything dropped was white space. */
  function TrimStart(s: string): (r: string)
    ensures |r| <= |s| && r == s[|s| - |r|..]
    ensures AllWhitespace(s[..|s| - |r|])
    ensures r != [] ==> !IsWhitespace(r[0])
  {
    if s != [] && IsWhitespace(s[0]) then
      var r := TrimStart(s[1..]);
      SuffixOfTail(s, r);
      WhitespaceThenWhitespace(s, |s| - |r|);
      r
    else
      s
  }

  lemma SuffixOfTail(s: string, r: string)
    requires s != [] && |r| <= |s| - 1 && r == s[1..][|s| - 1 - |r|..]
    ensures r == s[|s| - |r|..]
  {
    assert s[1..][|s| - 1 - |r|..] == s[|s| - |r|..];
  }

  lemma WhitespaceThenWhitespace(s: string, n: nat)
    requires 0 < n <= |s| && IsWhitespace(s[0]) && AllWhitespace(s[1..][..n - 1])
    ensures AllWhitespace(s[..n])
  {
    forall k | 0 <= k < n
      ensures IsWhitespace(s[..n][k])
    {
      if k > 0 {
        assert s[..n][k] == s[1..][..n - 1][k - 1];
      }
    }
  }

  /** Drops the trailing white space: what remains is a prefix of `s` that does
      not end with white space, and everything dropped was white space. */
  function TrimEnd(s: string): (r: string)
    ensures |r| <= |s| && r == s[..|r|]
    ensures AllWhitespace(s[|r|..])
    ensures r != [] ==> !IsWhitespace(r[|r| - 1])
  {
    if s != [] && IsWhitespace(s[|s| - 1]) then
      var r := TrimEnd(s[..|s| - 1]);
      assert s[|r|..] == s[..|s| - 1][|r|..] + [s[|s| - 1]];
      r
    else
      s
  }

  /** `String.prototype.trim()`. */
  function Trim(s: string): string
  {
    TrimEnd(TrimStart(s))
  }

  /** `trim()` yields the empty string exactly when the input is all white
      space. */
  lemma TrimEmptyIffAllWhitespace(s: string)
    ensures Trim(s) == "" <==> AllWhitespace(s)
  {
    var t := TrimStart(s);
    if t == [] {
      assert s[..|s|] == s;
    } else {
      assert t[0] == s[|s| - |t|];
      assert t[0..][0] == t[0];
    }
  }

  /** The result of `trim()` is a slice of the input ... */
  lemma TrimIsSlice(s: string)
    ensures var i := |s| - |TrimStart(s)|; Trim(s) == s[i..i + |Trim(s)|]
  {
    var t := TrimStart(s);
    var r := TrimEnd(t);
    var i := |s| - |t|;
    assert r == s[i..i + |r|] by {
      PrefixOfSuffix(s, i, t, r);
    }
  }

  lemma PrefixOfSuffix(s: string, i: nat, t: string, r: string)
    requires i <= |s| && t == s[i..] && |r| <= |t| && r == t[..|r|]
    ensures r == s[i..i + |r|]
  {
    assert s[i..][..|r|] == s[i..i + |r|];
  }

  /** ... with white space only on either side of it. */
  lemma TrimDropsOnlyWhitespace(s: string)
    ensures var i := |s| - |TrimStart(s)|;
      AllWhitespace(s[..i]) && AllWhitespace(s[i + |Trim(s)|..])
  {
    var t := TrimStart(s);
    var i := |s| - |t|;
    var r := TrimEnd(t);
    assert s[i + |r|..] == t[|r|..];
  }

  /** The result of `trim()` neither starts nor ends with white space. */
  lemma TrimHasNoOuterWhitespace(s: string)
    ensures var r := Trim(s); r != [] ==> !IsWhitespace(r[0]) && !IsWhitespace(r[|r| - 1])
  {
    var t := TrimStart(s);
    var r := TrimEnd(t);
    if r != [] {
      assert r[0] == t[0];
    }
  }

  /** A string whose first character is not white space is left alone by
      `TrimStart`. */
  lemma TrimStartNoop(s: string)
    requires s != [] && !IsWhitespace(s[0])
    ensures TrimStart(s) == s
  {
  }

  // ---------------------------------------------------------------------------
  // Numbers and their decimal spelling

  predicate IsDecimalDigit(c: char)
  {
    '0' <= c <= '9'
  }

  function DigitChar(d: nat): (c: char)
    requires d < 10
  {
    "0123456789"[d]
  }

  /** The value of `c` as a digit in bases up to 36; 36 for any other character. */
  function DigitValue(c: char): nat
  {
    if '0' <= c <= '9' then c as int - '0' as int
    else if 'a' <= c <= 'z' then c as int - 'a' as int + 10
    else if 'A' <= c <= 'Z' then c as int - 'A' as int + 10
    else 36
  }

  /** The decimal spelling of a natural number, without leading zeros. */
  function NatToString(n: nat): (r: string)
    ensures r != []
    ensures forall k :: 0 <= k < |r| ==> IsDecimalDigit(r[k])
    ensures r[0] == '0' ==> n == 0
    decreases n
  {
    if n < 10 then [DigitChar(n)] else NatToString(n / 10) + [DigitChar(n % 10)]
  }

  /** `String(i)` for an integer `i`. */
  function IntToString(i: int): string
  {
    if i < 0 then "-" + NatToString(-i) else NatToString(i)
  }

  /** The longest prefix of `s` made of digits of base `radix`. */
  function DigitRun(s: string, radix: nat): (r: string)
    ensures |r| <= |s| && r == s[..|r|]
    ensures forall k :: 0 <= k < |r| ==> DigitValue(r[k]) < radix
    ensures |r| < |s| ==> DigitValue(s[|r|]) >= radix
  {
    if s != [] && DigitValue(s[0]) < radix then [s[0]] + DigitRun(s[1..], radix) else []
  }

  /** The number a string of base-`radix` digits denotes, most significant first. */
  function DigitsValue(d: string, radix: nat): nat
  {
    if d == [] then 0 else DigitsValue(d[..|d| - 1], radix) * radix + DigitValue(d[|d| - 1])
  }

  /** `parseInt(s)` with no radix: leading white space is skipped, one sign is
      read, then the magnitude; no digit at all gives NaN (`None`). */
  function ParseInt(s: string): Option<int>
  {
    var t := TrimStart(s);
    if t != [] && t[0] == '-' then
      match ParseMagnitude(t[1..])
      case Some(v) => Some(-(v as int))
      case None => None
    else if t != [] && t[0] == '+' then ParseMagnitude(t[1..])
    else ParseMagnitude(t)
  }

  /** The unsigned part of `parseInt`: a `0x`/`0X` prefix switches to base 16,
      then the longest run of digits of the base is read. */
  function ParseMagnitude(u: string): Option<nat>
  {
    var hex := |u| >= 2 && u[0] == '0' && (u[1] == 'x' || u[1] == 'X');
    var radix := if hex then 16 else 10;
    var digits := DigitRun(if hex then u[2..] else u, radix);
    if digits == [] then None else Some(DigitsValue(digits, radix))
  }

  // ---------------------------------------------------------------------------
  // Strings and arrays

  /** `s.split('\n')[0]`: the text before the first line feed, or all of `s`. */
  function FirstLine(s: string): (r: string)
    ensures |r| <= |s| && r == s[..|r|]
    ensures '\n' !in r
    ensures |r| < |s| ==> s[|r|] == '\n'
  {
    if s == [] || s[0] == '\n' then [] else [s[0]] + FirstLine(s[1..])
  }

  /** `s.indexOf(c)`, with `|s|` standing for "not found": the position of
      the first `c` in `s`. */
  function IndexOf<T(==)>(s: seq<T>, c: T): (i: nat)
    ensures i <= |s| && c !in s[..i]
    ensures i < |s| ==> s[i] == c
  {
    if s == [] || s[0] == c then 0
    else
      var i := IndexOf(s[1..], c);
      assert s[..i + 1] == [s[0]] + s[1..][..i];
      i + 1
  }

  /** The first occurrence is found where it is. */
  lemma IndexOfAt<T>(s: seq<T>, c: T, i: nat)
    requires i < |s| && s[i] == c && c !in s[..i]
    ensures IndexOf(s, c) == i
  {
  }

  /** `s.replace(c, '')` with a one-character string pattern: only the first
      occurrence of `c` is removed. */
  function RemoveFirst(s: string, c: char): (r: string)
    ensures c !in s ==> r == s
    ensures c in s ==> |r| + 1 == |s| && multiset(r) + multiset{c} == multiset(s)
    ensures c in s ==> r[..IndexOf(s, c)] == s[..IndexOf(s, c)] && c !in r[..IndexOf(s, c)]
    ensures c in s ==> r[IndexOf(s, c)..] == s[IndexOf(s, c) + 1..]
  {
    var i := IndexOf(s, c);
    if i < |s| then
      assert s == s[..i] + [c] + s[i + 1..];
      s[..i] + s[i + 1..]
    else s
  }

  /** `a.splice(start, 0, ...items)`: `items` inserted before index `start`,
      or appended when `start` is past the end. */
  function Splice<T>(s: seq<T>, start: nat, items: seq<T>): (r: seq<T>)
    ensures |r| == |s| + |items|
    ensures start <= |s| ==> r[start..start + |items|] == items && r[..start] + r[start + |items|..] == s
    ensures start > |s| ==> r == s + items
  {
    var k := if start <= |s| then start else |s|;
    s[..k] + items + s[k..]
  }

  // ---------------------------------------------------------------------------
  // Array.prototype.sort((a, b) => key(b) - key(a))

  ghost predicate SortedDesc<T>(s: seq<T>, key: T -> real)
  {
    forall i, j :: 0 <= i < j < |s| ==> key(s[i]) >= key(s[j])
  }

  ghost predicate StrictlyDesc<T>(s: seq<T>, key: T -> real)
  {
    forall i, j :: 0 <= i < j < |s| ==> key(s[i]) > key(s[j])
  }

  ghost predicate DistinctKeys<T>(s: seq<T>, key: T -> real)
  {
    forall i, j :: 0 <= i < j < |s| ==> key(s[i]) != key(s[j])
  }

  /** Places `x` before the first element whose key is not larger than its own. */
  function Insert<T>(x: T, s: seq<T>, key: T -> real): (r: seq<T>)
    ensures |r| == |s| + 1 && multiset(r) == multiset(s) + multiset{x}
  {
    if s == [] || key(x) >= key(s[0]) then
      [x] + s
    else
      assert s == [s[0]] + s[1..];
      [s[0]] + Insert(x, s[1..], key)
  }

  /** Every element of `Insert(x, s)` is `x` or an element of `s`. */
  lemma InsertFrom<T>(x: T, s: seq<T>, key: T -> real)
    ensures forall y :: y in Insert(x, s, key) ==> y == x || y in s
  {
    var r := Insert(x, s, key);
    forall y | y in r ensures y == x || y in s {
      assert y in multiset(r);
    }
  }

  /** A key at least as large as every key of `s` may head it. */
  lemma ConsSorted<T>(y: T, s: seq<T>, key: T -> real, strict: bool)
    requires if strict then StrictlyDesc(s, key) else SortedDesc(s, key)
    requires forall z :: z in s ==> if strict then key(y) > key(z) else key(y) >= key(z)
    ensures if strict then StrictlyDesc([y] + s, key) else SortedDesc([y] + s, key)
  {
    var r := [y] + s;
    forall i, j | 0 <= i < j < |r|
      ensures if strict then key(r[i]) > key(r[j]) else key(r[i]) >= key(r[j])
    {
      assert r[j] == s[j - 1];
      if i > 0 {
        assert r[i] == s[i - 1];
      } else {
        assert s[j - 1] in s;
      }
    }
  }

  /** Inserting into a list ordered by descending key keeps it ordered; it
      stays strictly ordered when the new key differs from every other key. */
  lemma {:induction false} InsertSorted<T>(x: T, s: seq<T>, key: T -> real, strict: bool)
    requires if strict then StrictlyDesc(s, key) else SortedDesc(s, key)
    requires strict ==> forall y :: y in s ==> key(y) != key(x)
    ensures if strict then StrictlyDesc(Insert(x, s, key), key) else SortedDesc(Insert(x, s, key), key)
  {
    if s == [] || key(x) >= key(s[0]) {
      forall z | z in s ensures if strict then key(x) > key(z) else key(x) >= key(z) {
        var j :| 0 <= j < |s| && s[j] == z;
        if j > 0 { assert key(s[0]) >= key(s[j]); }
      }
      ConsSorted(x, s, key, strict);
    } else {
      var tail := s[1..];
      assert if strict then StrictlyDesc(tail, key) else SortedDesc(tail, key);
      assert strict ==> forall y :: y in tail ==> key(y) != key(x);
      InsertSorted(x, tail, key, strict);
      InsertFrom(x, tail, key);
      forall z | z in Insert(x, tail, key)
        ensures if strict then key(s[0]) > key(z) else key(s[0]) >= key(z)
      {
        if z != x {
          var j :| 0 <= j < |tail| && tail[j] == z;
          assert s[j + 1] == z;
        }
      }
      ConsSorted(s[0], Insert(x, tail, key), key, strict);
    }
  }

  /** A stable sort on descending keys, as `sort` with comparator
      `(a, b) => key(b) - key(a)` orders an array; the result is a permutation
      of the input. */
  function SortDesc<T>(s: seq<T>, key: T -> real): (r: seq<T>)
    ensures |r| == |s| && multiset(r) == multiset(s)
  {
    if s == [] then []
    else
      assert s == [s[0]] + s[1..];
      Insert(s[0], SortDesc(s[1..], key), key)
  }

  /** The sorted list is ordered by non-increasing key, and strictly
      decreasing when the keys of the input are pairwise distinct. */
  lemma {:induction false} SortDescSorted<T>(s: seq<T>, key: T -> real)
    ensures SortedDesc(SortDesc(s, key), key)
    ensures DistinctKeys(s, key) ==> StrictlyDesc(SortDesc(s, key), key)
  {
    if s != [] {
      var tail := s[1..];
      var rest := SortDesc(tail, key);
      SortDescSorted(tail, key);
      InsertSorted(s[0], rest, key, false);
      if DistinctKeys(s, key) {
        assert DistinctKeys(tail, key);
        forall y | y in rest ensures key(y) != key(s[0]) {
          assert y in multiset(rest);
          var j :| 0 <= j < |tail| && tail[j] == y;
          assert s[j + 1] == y;
        }
        InsertSorted(s[0], rest, key, true);
      }
    }
  }
}
