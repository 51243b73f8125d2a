/** The .NET `System.String` operations the bot relies on, over `string`:
    `Trim`, `ToLower`, ordinal case-insensitive comparison, `Split` on a
    separator, `string.Join`, and the decimal rendering of a non-negative
    `int`. A Dafny `string` is a sequence of Unicode scalar values while .NET
    counts UTF-16 code units; the two agree on text within the Basic
    Multilingual Plane. Case mapping covers ASCII letters only. */
module Strings {
  import opened Wrappers

  // ---------------------------------------------------------------------------
  // White space and Trim
  // ---------------------------------------------------------------------------

  /** `Char.IsWhiteSpace`: the Unicode space, line and paragraph separators,
      the controls TAB through CR, and NEL. */
  predicate IsWhiteSpace(c: char)
  {
    var x := c as int;
    || x == 0x20 || (0x09 <= x <= 0x0D) || x == 0x85 || x == 0xA0 || x == 0x1680
    || (0x2000 <= x <= 0x200A) || x == 0x2028 || x == 0x2029 || x == 0x202F
    || x == 0x205F || x == 0x3000
  }

  predicate AllWhiteSpace(s: string)
  {
    forall i :: 0 <= i < |s| ==> IsWhiteSpace(s[i])
  }

  /** No white space at either end: the shape of every result of `Trim`. */
  predicate IsTrimmed(s: string)
  {
    s == [] || (!IsWhiteSpace(s[0]) && !IsWhiteSpace(s[|s| - 1]))
  }

  /** The index of the first character at or after `i` that is not white
      space, or `|s|` when there is none. */
  function SkipLeading(s: string, i: nat): (n: nat)
    requires i <= |s|
    ensures i <= n <= |s|
    ensures forall k :: i <= k < n ==> IsWhiteSpace(s[k])
    ensures n == |s| || !IsWhiteSpace(s[n])
    decreases |s| - i
  {
    if i < |s| && IsWhiteSpace(s[i]) then SkipLeading(s, i + 1) else i
  }

  /** The index just past the last character before `j` that is not white
      space, or 0 when there is none. */
  function SkipTrailing(s: string, j: nat): (n: nat)
    requires j <= |s|
    ensures n <= j
    ensures forall k :: n <= k < j ==> IsWhiteSpace(s[k])
    ensures n == 0 || !IsWhiteSpace(s[n - 1])
  {
    if j > 0 && IsWhiteSpace(s[j - 1]) then SkipTrailing(s, j - 1) else j
  }

  /** `s` without its leading white space: a suffix of `s`. */
  function TrimStart(s: string): (r: string)
    ensures |r| <= |s| && r == s[|s| - |r|..]
    ensures AllWhiteSpace(s[..|s| - |r|])
    ensures r == [] || !IsWhiteSpace(r[0])
  {
    s[SkipLeading(s, 0)..]
  }

  /** `s` without its trailing white space: a prefix of `s`. */
  function TrimEnd(s: string): (r: string)
    ensures |r| <= |s| && r == s[..|r|]
    ensures AllWhiteSpace(s[|r|..])
    ensures r == [] || !IsWhiteSpace(r[|r| - 1])
  {
    s[..SkipTrailing(s, |s|)]
  }

  /** `String.Trim()`: the slice of `s` left after white space is removed from
      both ends. */
  function Trim(s: string): (r: string)
    ensures IsTrimmed(r)
    ensures exists a, b :: 0 <= a <= b <= |s| && r == s[a..b] && AllWhiteSpace(s[..a]) && AllWhiteSpace(s[b..])
  {
    var front := TrimStart(s);
    var r := TrimEnd(front);
    var a := |s| - |front|;
    assert r == s[a..a + |r|];
    assert s[a + |r|..] == front[|r|..];
    r
  }

  /** Trimming is idempotent: a trimmed string is its own trim. */
  lemma TrimOfTrimmed(s: string)
    requires IsTrimmed(s)
    ensures Trim(s) == s
  {
  }

  lemma TrimStartPadded(w: string, s: string)
    requires AllWhiteSpace(w)
    requires s == [] || !IsWhiteSpace(s[0])
    ensures TrimStart(w + s) == s
  {
    var t := w + s;
    assert forall k :: 0 <= k < |w| ==> t[k] == w[k];
    assert |s| > 0 ==> t[|w|] == s[0];
    assert t[|w|..] == s;
  }

  lemma TrimEndPadded(s: string, w: string)
    requires AllWhiteSpace(w)
    requires s == [] || !IsWhiteSpace(s[|s| - 1])
    ensures TrimEnd(s + w) == s
  {
    var t := s + w;
    assert forall k :: |s| <= k < |t| ==> t[k] == w[k - |s|];
    assert |s| > 0 ==> t[|s| - 1] == s[|s| - 1];
    assert t[..|s|] == s;
  }

  /** `Trim` is exactly the removal of white-space padding: a trimmed string
      surrounded by any white space trims back to itself. */
  lemma TrimPadded(before: string, s: string, after: string)
    requires AllWhiteSpace(before) && AllWhiteSpace(after) && IsTrimmed(s)
    ensures Trim(before + s + after) == s
  {
    if s == [] {
      assert before + s + after == (before + after) + [];
      TrimStartPadded(before + after, []);
    } else {
      assert before + s + after == before + (s + after);
      TrimStartPadded(before, s + after);
      TrimEndPadded(s, after);
    }
  }

  // ---------------------------------------------------------------------------
  // Case
  // ---------------------------------------------------------------------------

  predicate IsUpperAscii(c: char)
  {
    'A' <= c <= 'Z'
  }

  /** No upper-case ASCII letter: the shape of every result of `Lower`. */
  predicate IsLowerCase(s: string)
  {
    forall i :: 0 <= i < |s| ==> !IsUpperAscii(s[i])
  }

  function LowerChar(c: char): char
  {
    if IsUpperAscii(c) then (c as int + 32) as char else c
  }

  /** `String.ToLower()` restricted to ASCII letters. */
  function Lower(s: string): (r: string)
    ensures |r| == |s| && IsLowerCase(r)
    ensures forall i :: 0 <= i < |s| && !IsUpperAscii(s[i]) ==> r[i] == s[i]
    ensures forall i :: 0 <= i < |s| && IsUpperAscii(s[i]) ==> r[i] as int == s[i] as int + 32
  {
    seq(|s|, i requires 0 <= i < |s| => LowerChar(s[i]))
  }

  /** Lower-casing leaves a lower-case string unchanged, so it is idempotent. */
  lemma LowerOfLowerCase(s: string)
    requires IsLowerCase(s)
    ensures Lower(s) == s
  {
  }

  lemma LowerPrefix(s: string, k: nat)
    requires k <= |s|
    ensures Lower(s[..k]) == Lower(s)[..k]
  {
  }

  /** Ordinal case-insensitive equality (`StringComparison.OrdinalIgnoreCase`). */
  predicate EqualsIgnoreCase(a: string, b: string)
  {
    Lower(a) == Lower(b)
  }

  /** `s.StartsWith(prefix, StringComparison.OrdinalIgnoreCase)`. */
  predicate StartsWithIgnoreCase(s: string, prefix: string)
  {
    |prefix| <= |s| && EqualsIgnoreCase(s[..|prefix|], prefix)
  }

  /** Case-insensitive comparison is character by character: equal lengths
      and equal characters once each is lower-cased. */
  lemma EqualsIgnoreCaseCharwise(a: string, b: string)
    ensures EqualsIgnoreCase(a, b)
      <==> |a| == |b| && forall i :: 0 <= i < |a| ==> LowerChar(a[i]) == LowerChar(b[i])
  {
    if |a| == |b| && forall i :: 0 <= i < |a| ==> LowerChar(a[i]) == LowerChar(b[i]) {
      assert forall i :: 0 <= i < |a| ==> Lower(a)[i] == Lower(b)[i];
    }
  }

  /** A case-insensitive prefix test compares the first `|prefix|` characters
      of `s`, lower-cased, with the prefix's, and fails on a shorter `s`. */
  lemma StartsWithIgnoreCaseCharwise(s: string, prefix: string)
    ensures StartsWithIgnoreCase(s, prefix)
      <==> |prefix| <= |s| && forall i :: 0 <= i < |prefix| ==> LowerChar(s[i]) == LowerChar(prefix[i])
  {
    if |prefix| <= |s| {
      EqualsIgnoreCaseCharwise(s[..|prefix|], prefix);
    }
  }

  // ---------------------------------------------------------------------------
  // Searching, splitting and joining
  // ---------------------------------------------------------------------------

  /** `sep` occurs in `s` starting at index `i`. */
  predicate OccursAt(s: string, sep: string, i: int)
  {
    0 <= i && i + |sep| <= |s| && s[i..i + |sep|] == sep
  }

  predicate Contains(s: string, sep: string)
  {
    exists i | 0 <= i <= |s| :: OccursAt(s, sep, i)
  }

  /** `s.IndexOf(sep, from)` with ordinal comparison: the first occurrence at or
      after `from`. */
  function IndexOf(s: string, sep: string, from: nat): (r: Option<nat>)
    ensures r.Some? ==> from <= r.value && OccursAt(s, sep, r.value)
    ensures r.Some? ==> forall j :: from <= j < r.value ==> !OccursAt(s, sep, j)
    ensures r.None? ==> forall j :: from <= j ==> !OccursAt(s, sep, j)
    decreases |s| - from
  {
    if from + |sep| > |s| then None
    else if s[from..from + |sep|] == sep then Some(from)
    else IndexOf(s, sep, from + 1)
  }

  /** An occurrence ending by index `i` is one in the prefix `s[..i]`. */
  lemma OccursInPrefix(s: string, sep: string, i: nat, j: int)
    requires i <= |s| && j + |sep| <= i
    ensures OccursAt(s[..i], sep, j) <==> OccursAt(s, sep, j)
  {
    if 0 <= j {
      assert s[..i][j..j + |sep|] == s[j..j + |sep|];
    }
  }

  /** `s.Split(sep)` with no options: the pieces between the successive
      left-to-right, non-overlapping occurrences of `sep`; an empty separator
      does not split. Each separator is the leftmost one: no piece, extended
      by all but the last character of the separator that follows it, holds
      the separator, so a self-overlapping separator such as " to " is cut at
      its first occurrence. */
  function Split(s: string, sep: string): (parts: seq<string>)
    ensures |parts| >= 1
    ensures |sep| > 0 ==> forall k :: 0 <= k < |parts| ==> !Contains(parts[k], sep)
    ensures |sep| > 0 ==> forall k :: 0 <= k < |parts| - 1 ==> !Contains(parts[k] + sep[..|sep| - 1], sep)
    decreases |s|
  {
    if |sep| == 0 then [s]
    else match IndexOf(s, sep, 0)
      case None => [s]
      case Some(i) =>
        var head := s[..i];
        assert !Contains(head, sep) by {
          forall j | 0 <= j <= |head| && OccursAt(head, sep, j)
            ensures false
          {
            OccursInPrefix(s, sep, i, j);
          }
        }
        var reach := head + sep[..|sep| - 1];
        assert !Contains(reach, sep) by {
          assert reach == s[..i + |sep| - 1];
          forall j | 0 <= j <= |reach| && OccursAt(reach, sep, j)
            ensures false
          {
            OccursInPrefix(s, sep, i + |sep| - 1, j);
          }
        }
        [head] + Split(s[i + |sep|..], sep)
  }

  /** `string.Join(sep, parts)`. */
  function Join(parts: seq<string>, sep: string): string
  {
    if |parts| == 0 then ""
    else if |parts| == 1 then parts[0]
    else parts[0] + sep + Join(parts[1..], sep)
  }

  /** A join ends with the end of its last part. */
  lemma {:induction false} JoinEndsWithLast(parts: seq<string>, sep: string)
    requires |parts| >= 1 && parts[|parts| - 1] != []
    ensures var j := Join(parts, sep);
      |j| >= |parts[|parts| - 1]| && j[|j| - 1] == parts[|parts| - 1][|parts[|parts| - 1]| - 1]
    decreases |parts|
  {
    if |parts| > 1 {
      JoinEndsWithLast(parts[1..], sep);
      assert parts[1..][|parts| - 2] == parts[|parts| - 1];
    }
  }

  /** A string is its three consecutive slices put back together. */
  lemma Reassemble(s: string, i: nat, j: nat)
    requires i <= j <= |s|
    ensures s == s[..i] + s[i..j] + s[j..]
  {
  }

  /** Joining the pieces of a split with the same separator gives back the
      original string: `Split` loses nothing but the separators. */
  lemma {:induction false} JoinSplit(s: string, sep: string)
    ensures Join(Split(s, sep), sep) == s
    decreases |s|
  {
    if |sep| > 0 && IndexOf(s, sep, 0).Some? {
      var i := IndexOf(s, sep, 0).value;
      var rest := s[i + |sep|..];
      JoinSplit(rest, sep);
      SplitStep(s, sep, i);
      JoinStep(s[..i], Split(rest, sep), sep);
      Reassemble(s, i, i + |sep|);
    }
  }

  lemma SplitStep(s: string, sep: string, i: nat)
    requires |sep| > 0 && IndexOf(s, sep, 0) == Some(i)
    ensures i + |sep| <= |s| && s[i..i + |sep|] == sep
    ensures Split(s, sep) == [s[..i]] + Split(s[i + |sep|..], sep)
  {
    assert OccursAt(s, sep, i);
  }

  lemma JoinStep(head: string, tail: seq<string>, sep: string)
    requires |tail| >= 1
    ensures Join([head] + tail, sep) == head + sep + Join(tail, sep)
  {
    assert ([head] + tail)[1..] == tail;
  }


  /** A one-character separator occurs exactly where that character is. */
  lemma OccursAtChar(s: string, c: char, j: int)
    ensures OccursAt(s, [c], j) <==> 0 <= j < |s| && s[j] == c
  {
    if 0 <= j < |s| {
      assert s[j..j + 1] == [s[j]];
    }
  }

  /** The first occurrence of `sep` is found wherever it is. */
  lemma IndexOfFirst(s: string, sep: string, k: nat)
    requires OccursAt(s, sep, k)
    requires forall j :: 0 <= j < k ==> !OccursAt(s, sep, j)
    ensures IndexOf(s, sep, 0) == Some(k)
  {
  }

  /** A separator of one character not occurring in any part: splitting the
      joined parts gives the parts back. */
  lemma {:induction false} SplitJoin(parts: seq<string>, c: char)
    requires |parts| >= 1
    requires forall k :: 0 <= k < |parts| ==> c !in parts[k]
    ensures Split(Join(parts, [c]), [c]) == parts
    decreases |parts|
  {
    if |parts| == 1 {
      SplitWithout(parts[0], c);
    } else {
      SplitJoinStep(parts, c);
      SplitJoin(parts[1..], c);
      assert parts == [parts[0]] + parts[1..];
    }
  }

  /** A string without the separator character splits into itself. */
  lemma SplitWithout(s: string, c: char)
    requires c !in s
    ensures Split(s, [c]) == [s]
  {
    forall j
      ensures !OccursAt(s, [c], j)
    {
      OccursAtChar(s, c, j);
    }
    assert IndexOf(s, [c], 0).None?;
  }

  /** The first cut of a join on a character absent from the first part falls
      right after that part. */
  lemma SplitJoinStep(parts: seq<string>, c: char)
    requires |parts| >= 2 && c !in parts[0]
    ensures Split(Join(parts, [c]), [c]) == [parts[0]] + Split(Join(parts[1..], [c]), [c])
  {
    var s := Join(parts, [c]);
    var head := parts[0];
    var rest := Join(parts[1..], [c]);
    assert s == head + [c] + rest;
    forall j | 0 <= j <= |head|
      ensures OccursAt(s, [c], j) <==> j == |head|
    {
      OccursAtChar(s, c, j);
    }
    IndexOfFirst(s, [c], |head|);
    SplitStep(s, [c], |head|);
    assert s[..|head|] == head;
    assert s[|head| + 1..] == rest;
  }


  /** `StringSplitOptions.RemoveEmptyEntries`: the non-empty pieces, in order. */
  function RemoveEmpty(parts: seq<string>): (r: seq<string>)
    ensures |r| <= |parts|
    ensures forall k :: 0 <= k < |r| ==> r[k] != [] && r[k] in parts
    ensures forall p :: p in parts && p != [] ==> p in r
    ensures (forall k :: 0 <= k < |parts| ==> parts[k] != []) ==> r == parts
  {
    if |parts| == 0 then []
    else if parts[0] == [] then RemoveEmpty(parts[1..])
    else [parts[0]] + RemoveEmpty(parts[1..])
  }

  /** Applies `Trim` to every piece (`.Select(x => x.Trim())`). */
  function TrimAll(parts: seq<string>): (r: seq<string>)
    ensures |r| == |parts|
    ensures forall k :: 0 <= k < |r| ==> r[k] == Trim(parts[k])
  {
    seq(|parts|, k requires 0 <= k < |parts| => Trim(parts[k]))
  }

  // ---------------------------------------------------------------------------
  // Decimal rendering of an int
  // ---------------------------------------------------------------------------

  predicate IsDigit(c: char)
  {
    '0' <= c <= '9'
  }

  function DigitChar(d: nat): (c: char)
    requires d < 10
  {
    "0123456789"[d]
  }

  function DigitValue(c: char): nat
    requires IsDigit(c)
  {
    c as int - '0' as int
  }

  /** `n.ToString()` for a non-negative `int`: decimal, no sign, no padding. */
  function NatToString(n: nat): (s: string)
    ensures |s| >= 1
    ensures forall i :: 0 <= i < |s| ==> IsDigit(s[i])
    ensures |s| > 1 ==> s[0] != '0'
  {
    if n < 10 then [DigitChar(n)] else NatToString(n / 10) + [DigitChar(n % 10)]
  }

  /** The value of a string of decimal digits. */
  function ParseNat(s: string): nat
    requires forall i :: 0 <= i < |s| ==> IsDigit(s[i])
  {
    if |s| == 0 then 0 else ParseNat(s[..|s| - 1]) * 10 + DigitValue(s[|s| - 1])
  }

  /** The rendering is faithful: reading the digits back gives the number. */
  lemma {:induction false} ParseNatToString(n: nat)
    ensures ParseNat(NatToString(n)) == n
  {
    var s := NatToString(n);
    if n >= 10 {
      ParseNatToString(n / 10);
      assert s[..|s| - 1] == NatToString(n / 10);
    }
  }
}
