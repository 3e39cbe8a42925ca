/** String functions shared by every analyzer, over `seq<char>`: ASCII lower-casing,
    substring search, Python's `str.split(sep)`, `sep.join(parts)` and `str.strip()`,
    slicing that clamps like Python's `s[:n]`, and decimal rendering of naturals. */
module Text {
  import opened Core

  // ---------------------------------------------------------------------------
  // Case

  predicate IsUpperAscii(c: char)
  {
    'A' <= c <= 'Z'
  }

  function LowerChar(c: char): char
  {
    if IsUpperAscii(c) then (c as int + 32) as char else c
  }

  /** `str.lower()`, restricted to the ASCII letters. */
  function Lower(s: string): (r: string)
    ensures |r| == |s|
    ensures forall i :: 0 <= i < |s| ==> r[i] == LowerChar(s[i])
  {
    if s == [] then [] else [LowerChar(s[0])] + Lower(s[1..])
  }

  predicate IsLowerAscii(c: char)
  {
    'a' <= c <= 'z'
  }

  function UpperChar(c: char): char
  {
    if IsLowerAscii(c) then (c as int - 32) as char else c
  }

  /** `str.upper()`, restricted to the ASCII letters. */
  function Upper(s: string): (r: string)
    ensures |r| == |s|
    ensures forall i :: 0 <= i < |s| ==> r[i] == UpperChar(s[i])
  {
    if s == [] then [] else [UpperChar(s[0])] + Upper(s[1..])
  }

  /** Lower-casing leaves no upper-case ASCII letter behind and is idempotent. */
  lemma LowerIsLower(s: string)
    ensures forall i :: 0 <= i < |s| ==> !IsUpperAscii(Lower(s)[i])
    ensures Lower(Lower(s)) == Lower(s)
  {
  }

  // ---------------------------------------------------------------------------
  // Prefixes and substrings

  predicate StartsWith(s: string, prefix: string)
  {
    |prefix| <= |s| && s[..|prefix|] == prefix
  }

  predicate EndsWith(s: string, suffix: string)
  {
    |suffix| <= |s| && s[|s| - |suffix|..] == suffix
  }

  /** `sub` occurs in `s` starting at index `i`. */
  predicate OccursAt(s: string, sub: string, i: nat)
  {
    i + |sub| <= |s| && s[i..i + |sub|] == sub
  }

  /** Python's `sub in s` on two strings. */
  predicate Contains(s: string, sub: string)
  {
    exists i: nat :: i <= |s| && OccursAt(s, sub, i)
  }

  /** The first index at or after `from` where `sub` occurs, if any (`str.find`). */
  function FindFrom(s: string, sub: string, from: nat): (r: Option<nat>)
    ensures r.Some? ==> from <= r.value && OccursAt(s, sub, r.value)
    ensures r.Some? ==> forall j: nat :: from <= j < r.value ==> !OccursAt(s, sub, j)
    ensures r.None? ==> forall j: nat :: from <= j ==> !OccursAt(s, sub, j)
    decreases |s| - from
  {
    if from + |sub| > |s| then None
    else if s[from..from + |sub|] == sub then Some(from)
    else FindFrom(s, sub, from + 1)
  }

  /** Every character of an occurring substring is a character of the string; used to
      show that a fixed sentence cannot contain a keyword by naming one keyword letter
      the sentence lacks. */
  lemma ContainsCharOf(s: string, sub: string, c: char)
    requires Contains(s, sub) && c in sub
    ensures c in s
  {
    var i: nat :| i <= |s| && OccursAt(s, sub, i);
    var k :| 0 <= k < |sub| && sub[k] == c;
    assert s[i..i + |sub|][k] == s[i + k];
  }

  /** The contrapositive: a string lacking one character of `sub` does not contain `sub`. */
  lemma LacksCharOf(s: string, sub: string, c: char)
    requires c in sub && c !in s
    ensures !Contains(s, sub)
  {
    forall i: nat | i <= |s|
      ensures !OccursAt(s, sub, i)
    {
      if i + |sub| <= |s| {
        var k :| 0 <= k < |sub| && sub[k] == c;
        assert s[i..i + |sub|][k] == s[i + k];
      }
    }
  }

  /** Every string contains itself. */
  lemma ContainsSelf(x: string)
    ensures Contains(x, x)
  {
    assert OccursAt(x, x, 0);
  }

  /** Appending text keeps an occurrence. */
  lemma ContainsLeft(x: string, c: string, t: string)
    requires Contains(x, t)
    ensures Contains(x + c, t)
  {
    var i: nat :| i <= |x| && OccursAt(x, t, i);
    assert (x + c)[i..i + |t|] == x[i..i + |t|];
    assert OccursAt(x + c, t, i);
  }

  /** Prepending text keeps an occurrence. */
  lemma ContainsRight(a: string, x: string, t: string)
    requires Contains(x, t)
    ensures Contains(a + x, t)
  {
    var i: nat :| i <= |x| && OccursAt(x, t, i);
    assert (a + x)[|a| + i..|a| + i + |t|] == x[i..i + |t|];
    assert OccursAt(a + x, t, |a| + i);
  }

  /** Appending keeps a prefix. */
  lemma StartsWithAppend(s: string, prefix: string, t: string)
    requires StartsWith(s, prefix)
    ensures StartsWith(s + t, prefix)
  {
    assert (s + t)[..|prefix|] == s[..|prefix|];
  }

  /** A string begins with whatever it was built from on the left. */
  lemma StartsWithLeft(a: string, b: string)
    ensures StartsWith(a + b, a)
    ensures Contains(a + b, a)
  {
    assert OccursAt(a + b, a, 0);
  }

  /** Prepending keeps a suffix. */
  lemma EndsWithPrepend(s: string, suffix: string, t: string)
    requires EndsWith(s, suffix)
    ensures EndsWith(t + s, suffix)
  {
    assert (t + s)[|t + s| - |suffix|..] == s[|s| - |suffix|..];
  }

  /** Putting `first` before a three-part sequence is putting it before the first part. */
  lemma PrependThree<T>(first: seq<T>, a: seq<T>, b: seq<T>, c: seq<T>)
    ensures first + (a + b + c) == first + a + b + c
  {
  }

  /** Whatever is `first + (x + y)` is `first + x` followed by `y`. */
  lemma PrependAssoc<T>(whole: seq<T>, part: seq<T>, first: seq<T>, x: seq<T>, y: seq<T>)
    requires whole == first + (x + y) && part == first + x
    ensures whole == part + y
  {
  }

  /** A text built from a head, a middle and a tail starts with the head and ends with
      the tail. */
  lemma Framed(head: string, middle: string, tail: string)
    ensures StartsWith(head + middle + tail, head) && EndsWith(head + middle + tail, tail)
  {
    assert (head + middle + tail)[..|head|] == head;
    assert (head + middle + tail)[|head + middle|..] == tail;
  }

  /** A join begins with its first part. */
  lemma {:induction false} JoinStartsWithFirst(parts: seq<string>, sep: string)
    requires parts != []
    ensures StartsWith(Join(parts, sep), parts[0])
  {
    if |parts| > 1 {
      StartsWithLeft(parts[0], sep + Join(parts[1..], sep));
      assert Join(parts, sep) == parts[0] + (sep + Join(parts[1..], sep));
    }
  }

  /** A string whose only '.' (if any) is its last character contains no ". ". */
  lemma NoDotSpace(s: string)
    requires s != [] && '.' !in s[..|s| - 1]
    ensures !Contains(s, ". ")
  {
    forall i: nat | i <= |s|
      ensures !OccursAt(s, ". ", i)
    {
      if i + 2 <= |s| {
        assert s[i..i + 2][0] == s[i];
        assert s[..|s| - 1][i] == s[i];
      }
    }
  }

  /** A single sentence: it ends in '.' and has no other '.'. */
  predicate OneSentence(s: string)
  {
    s != [] && s[|s| - 1] == '.' && '.' !in s[..|s| - 1]
  }

  /** A single sentence ends in "." and contains no ". ". */
  lemma OneSentenceShape(s: string)
    requires OneSentence(s)
    ensures EndsWith(s, ".") && !Contains(s, ". ")
  {
    NoDotSpace(s);
  }

  /** Text without a '.' followed by a final "." is a single sentence. */
  lemma DotFreeSentence(a: string, b: string)
    requires '.' !in a && '.' !in b
    ensures OneSentence(a + b + ".")
  {
    assert (a + b + ".")[..|a + b|] == a + b;
  }

  /** A name in single quotes, as the explanations write it. */
  function Quoted(name: string): string
  {
    "'" + name + "'"
  }

  // ---------------------------------------------------------------------------
  // Split and join

  /** `sep.join(parts)`. */
  function Join(parts: seq<string>, sep: string): string
  {
    if |parts| == 0 then ""
    else if |parts| == 1 then parts[0]
    else parts[0] + sep + Join(parts[1..], sep)
  }

  /** A character found neither in the parts nor in the separator is not in the join. */
  lemma {:induction false} JoinLacksChar(parts: seq<string>, sep: string, c: char)
    requires c !in sep && forall k :: 0 <= k < |parts| ==> c !in parts[k]
    ensures c !in Join(parts, sep)
    decreases |parts|
  {
    if |parts| > 1 {
      JoinLacksChar(parts[1..], sep, c);
    }
  }

  /** No occurrence of `sep` starts before `i`, so the prefix `s[..i]` contains none. */
  lemma PrefixFreeOf(s: string, sep: string, i: nat)
    requires sep != [] && i <= |s|
    requires forall j: nat :: j < i ==> !OccursAt(s, sep, j)
    ensures !Contains(s[..i], sep)
  {
    forall j: nat | j <= i
      ensures !OccursAt(s[..i], sep, j)
    {
      if j + |sep| <= i {
        assert s[..i][j..j + |sep|] == s[j..j + |sep|];
        assert !OccursAt(s, sep, j);
      }
    }
  }

  /** Python's `s.split(sep)` for a non-empty separator: the pieces between the
      non-overlapping occurrences of `sep`, scanning left to right. */
  function SplitOn(s: string, sep: string): (r: seq<string>)
    requires sep != []
    ensures |r| >= 1
    ensures forall k :: 0 <= k < |r| ==> !Contains(r[k], sep)
    decreases |s|
  {
    match FindFrom(s, sep, 0)
    case None =>
      PrefixFreeOf(s, sep, |s|);
      [s]
    case Some(i) =>
      PrefixFreeOf(s, sep, i);
      [s[..i]] + SplitOn(s[i + |sep|..], sep)
  }

  /** The first piece of a split is the text up to the first separator, or all of it. */
  lemma SplitFirst(s: string, sep: string)
    requires sep != []
    ensures StartsWith(s, SplitOn(s, sep)[0])
    ensures SplitOn(s, sep)[0] == s || OccursAt(s, sep, |SplitOn(s, sep)[0]|)
  {
    match FindFrom(s, sep, 0)
    case None =>
    case Some(i) =>
      assert SplitOn(s, sep)[0] == s[..i];
  }

  /** A join ends with its last part. */
  lemma {:induction false} JoinEndsWithLast(parts: seq<string>, sep: string)
    requires parts != []
    ensures EndsWith(Join(parts, sep), parts[|parts| - 1])
    decreases |parts|
  {
    if |parts| > 1 {
      JoinEndsWithLast(parts[1..], sep);
      EndsWithPrepend(Join(parts[1..], sep), parts[|parts| - 1], parts[0] + sep);
      assert Join(parts, sep) == (parts[0] + sep) + Join(parts[1..], sep);
    }
  }

  /** A string holding a character contains it as a one-character substring. */
  lemma ContainsChar(s: string, c: char)
    requires c in s
    ensures Contains(s, [c])
  {
    var i :| 0 <= i < |s| && s[i] == c;
    assert s[i..i + 1] == [c];
    assert OccursAt(s, [c], i);
  }

  /** A split yields more than one piece exactly when the separator occurs. */
  lemma SplitCountIff(s: string, sep: string)
    requires sep != []
    ensures |SplitOn(s, sep)| >= 2 <==> Contains(s, sep)
    ensures !Contains(s, sep) ==> SplitOn(s, sep) == [s]
  {
    match FindFrom(s, sep, 0)
    case None =>
    case Some(i) =>
      assert OccursAt(s, sep, i);
  }

  /** Re-joining the pieces of a split with the same separator gives back the text. */
  lemma {:induction false} JoinSplit(s: string, sep: string)
    requires sep != []
    ensures Join(SplitOn(s, sep), sep) == s
    decreases |s|
  {
    match FindFrom(s, sep, 0)
    case None =>
    case Some(i) =>
      var rest := SplitOn(s[i + |sep|..], sep);
      var parts := [s[..i]] + rest;
      assert SplitOn(s, sep) == parts;
      assert parts[1..] == rest && parts[0] == s[..i];
      assert Join(parts, sep) == s[..i] + sep + Join(rest, sep);
      JoinSplit(s[i + |sep|..], sep);
      assert s == s[..i] + sep + s[i + |sep|..];
  }

  /** Joining two non-empty lists puts one separator between their joins. */
  lemma {:induction false} JoinConcat(a: seq<string>, b: seq<string>, sep: string)
    requires |a| > 0 && |b| > 0
    ensures Join(a + b, sep) == Join(a, sep) + sep + Join(b, sep)
    decreases |a|
  {
    if |a| == 1 {
      assert (a + b)[1..] == b;
    } else {
      JoinConcat(a[1..], b, sep);
      assert (a + b)[1..] == a[1..] + b;
    }
  }

  /** A two-character separator whose characters differ (". ", ", ") cannot overlap the
      end of a piece that does not contain it, so splitting a join gives back the parts. */
  lemma {:induction false} SplitJoin(parts: seq<string>, sep: string)
    requires |sep| == 2 && sep[0] != sep[1]
    requires |parts| >= 1
    requires forall k :: 0 <= k < |parts| ==> !Contains(parts[k], sep)
    ensures SplitOn(Join(parts, sep), sep) == parts
    decreases |parts|
  {
    var p := parts[0];
    if |parts| == 1 {
      match FindFrom(p, sep, 0)
      case None =>
      case Some(i) =>
        assert false;
    } else {
      var rest := Join(parts[1..], sep);
      var s := p + sep + rest;
      assert Join(parts, sep) == s;
      assert s[|p|..|p| + 2] == sep;
      assert OccursAt(s, sep, |p|);
      forall j: nat | j < |p|
        ensures !OccursAt(s, sep, j)
      {
        if j + 2 <= |p| {
          if OccursAt(s, sep, j) {
            assert s[j..j + 2] == p[j..j + 2];
            assert OccursAt(p, sep, j);
            assert false;
          }
        } else {
          assert s[j..j + 2][1] == s[j + 1] == sep[0];
        }
      }
      match FindFrom(s, sep, 0)
      case None =>
        assert false;
      case Some(i) =>
        assert i == |p|;
        assert s[..i] == p;
        assert s[i + 2..] == rest;
        SplitJoin(parts[1..], sep);
        assert [p] + parts[1..] == parts;
    }
  }

  /** A list of names written with ", " between a head and a tail splits back into the
      names, as long as none of them contains the separator. */
  lemma ListBetween(head: string, names: seq<string>, tail: string)
    requires |names| >= 1
    requires forall k :: 0 <= k < |names| ==> !Contains(names[k], ", ")
    ensures var t := head + Join(names, ", ") + tail;
      && StartsWith(t, head) && EndsWith(t, tail)
      && SplitOn(t[|head|..|t| - |tail|], ", ") == names
  {
    var j := Join(names, ", ");
    var t := head + j + tail;
    assert t[..|head|] == head;
    assert t[|t| - |tail|..] == tail;
    assert t[|head|..|t| - |tail|] == j;
    SplitJoin(names, ", ");
  }

  // ---------------------------------------------------------------------------
  // Whitespace

  /** Python's `str.isspace()` for one character. */
  predicate IsSpace(c: char)
  {
    var n := c as int;
    n == 32 || 9 <= n <= 13 || 28 <= n <= 31 || n == 0x85 || n == 0xA0 || n == 0x1680
    || 0x2000 <= n <= 0x200A || n == 0x2028 || n == 0x2029 || n == 0x202F || n == 0x205F
    || n == 0x3000
  }

  predicate AllSpace(s: string)
  {
    forall i :: 0 <= i < |s| ==> IsSpace(s[i])
  }

  /** `str.lstrip()`: the longest suffix not starting with whitespace. */
  function TrimStart(s: string): (r: string)
    ensures |r| <= |s| && r == s[|s| - |r|..]
    ensures r == [] || !IsSpace(r[0])
  {
    if s != [] && IsSpace(s[0]) then TrimStart(s[1..]) else s
  }

  /** What `lstrip` removes is all whitespace. */
  lemma {:induction false} TrimStartSpace(s: string)
    ensures AllSpace(s[..|s| - |TrimStart(s)|])
  {
    if s != [] && IsSpace(s[0]) {
      TrimStartSpace(s[1..]);
      var n := |s| - |TrimStart(s)|;
      assert s[..n] == [s[0]] + s[1..][..n - 1];
    }
  }

  /** `str.rstrip()`: the longest prefix not ending with whitespace. */
  function TrimEnd(s: string): (r: string)
    ensures |r| <= |s| && r == s[..|r|]
    ensures r == [] || !IsSpace(r[|r| - 1])
  {
    if s != [] && IsSpace(s[|s| - 1]) then TrimEnd(s[..|s| - 1]) else s
  }

  /** What `rstrip` removes is all whitespace. */
  lemma {:induction false} TrimEndSpace(s: string)
    ensures AllSpace(s[|TrimEnd(s)|..])
  {
    if s != [] && IsSpace(s[|s| - 1]) {
      var p := s[..|s| - 1];
      TrimEndSpace(p);
      var n := |TrimEnd(s)|;
      assert s[n..] == p[n..] + [s[|s| - 1]];
    }
  }

  /** `str.strip()`: the text between the leading and the trailing whitespace. */
  function Strip(s: string): (r: string)
    ensures r == [] <==> AllSpace(s)
    ensures r != [] ==> !IsSpace(r[0]) && !IsSpace(r[|r| - 1])
    ensures OccursAt(s, r, |s| - |TrimStart(s)|)
  {
    StripEmptyIffSpace(s);
    StripEnds(s);
    StripOccurs(s);
    TrimEnd(TrimStart(s))
  }

  lemma StripEnds(s: string)
    ensures var r := TrimEnd(TrimStart(s));
      r != [] ==> !IsSpace(r[0]) && !IsSpace(r[|r| - 1])
  {
    var t := TrimStart(s);
    var r := TrimEnd(t);
    if r != [] {
      assert r == t[..|r|];
      assert r[0] == t[0];
    }
  }

  lemma StripOccurs(s: string)
    ensures OccursAt(s, TrimEnd(TrimStart(s)), |s| - |TrimStart(s)|)
  {
    var t := TrimStart(s);
    var r := TrimEnd(t);
    var k := |s| - |t|;
    SliceOfSlice(s, k, |r|);
    assert r == t[..|r|];
  }

  /** Taking `n` after dropping `k` is the slice from `k` to `k + n`. */
  lemma SliceOfSlice(s: string, k: nat, n: nat)
    requires k + n <= |s|
    ensures s[k..][..n] == s[k..k + n]
  {
  }

  /** Stripping leaves nothing exactly when the text is all whitespace. */
  lemma StripEmptyIffSpace(s: string)
    ensures TrimEnd(TrimStart(s)) == [] <==> AllSpace(s)
  {
    var t := TrimStart(s);
    var r := TrimEnd(t);
    var k := |s| - |t|;
    assert s == s[..k] + t;
    if r == [] {
      TrimStartSpace(s);
      TrimEndSpace(t);
      assert t == t[|r|..];
      AllSpaceConcat(s[..k], t);
    } else {
      assert t[0] == s[k];
      assert !IsSpace(s[k]);
    }
  }

  lemma AllSpaceConcat(a: string, b: string)
    requires AllSpace(a) && AllSpace(b)
    ensures AllSpace(a + b)
  {
  }

  /** Whitespace parts joined by a whitespace separator give whitespace. */
  lemma {:induction false} JoinAllSpace(parts: seq<string>, sep: string)
    requires AllSpace(sep) && forall k :: 0 <= k < |parts| ==> AllSpace(parts[k])
    ensures AllSpace(Join(parts, sep))
    decreases |parts|
  {
    if |parts| > 1 {
      JoinAllSpace(parts[1..], sep);
      AllSpaceConcat(parts[0], sep);
      AllSpaceConcat(parts[0] + sep, Join(parts[1..], sep));
    }
  }

  /** Stripping twice is stripping once. */
  lemma StripIdempotent(s: string)
    ensures Strip(Strip(s)) == Strip(s)
  {
    var r := Strip(s);
    if r != [] {
      assert !IsSpace(r[0]) && !IsSpace(r[|r| - 1]);
      assert TrimStart(r) == r;
      assert TrimEnd(r) == r;
    }
  }

  // ---------------------------------------------------------------------------
  // Slicing and numbers

  /** Python's `s[:n]`: at most the first `n` characters. */
  function Take(s: string, n: nat): (r: string)
    ensures |r| <= n && StartsWith(s, r)
    ensures |s| <= n ==> r == s
    ensures |s| > n ==> |r| == n
  {
    if |s| <= n then s else s[..n]
  }

  predicate IsDigit(c: char)
  {
    '0' <= c <= '9'
  }

  function DigitChar(d: nat): (c: char)
    requires d < 10
    ensures IsDigit(c)
  {
    ('0' as int + d) as char
  }

  /** `str(n)` for a natural number: its decimal digits, most significant first. */
  function NatToString(n: nat): (r: string)
    ensures |r| >= 1
    ensures forall i :: 0 <= i < |r| ==> IsDigit(r[i])
    decreases n
  {
    if n < 10 then [DigitChar(n)] else NatToString(n / 10) + [DigitChar(n % 10)]
  }

  /** The number a string of decimal digits denotes. */
  function DigitsValue(s: string): nat
    requires forall i :: 0 <= i < |s| ==> IsDigit(s[i])
  {
    if s == [] then 0
    else
      var last := s[|s| - 1];
      assert IsDigit(last);
      DigitsValue(s[..|s| - 1]) * 10 + (last as int - '0' as int)
  }

  /** Rendering a count and reading the digits back gives the count. */
  lemma {:induction false} NatToStringRoundTrip(n: nat)
    ensures DigitsValue(NatToString(n)) == n
    decreases n
  {
    if n >= 10 {
      NatToStringRoundTrip(n / 10);
      var r := NatToString(n);
      assert r[..|r| - 1] == NatToString(n / 10);
    }
  }
}
