/** The parts of Go's `strings` package that the specifier parsers rely on:
    `SplitN(s, sep, 2)`, `Split(s, sep)`, `HasPrefix` and `TrimSpace`.
    A Go string is taken as a sequence of characters (runes); every separator
    used by the parsers is a single ASCII character. */
module GoStrings {

  /** Index of the first occurrence of `c` in `s`, or `|s|` when `c` does not occur. */
  function FirstIndex(s: string, c: char): (i: nat)
    ensures i <= |s|
    ensures i < |s| ==> s[i] == c
    ensures c !in s[..i]
    ensures i == |s| <==> c !in s
  {
    if |s| == 0 then 0
    else if s[0] == c then 0
    else
      var j := FirstIndex(s[1..], c);
      assert s[..1 + j] == [s[0]] + s[1..][..j];
      1 + j
  }

  /** The first occurrence is the only one with no earlier occurrence. */
  lemma FirstIndexUnique(s: string, c: char, k: nat)
    requires k < |s| && s[k] == c && c !in s[..k]
    ensures FirstIndex(s, c) == k
  {
  }

  /** In `p + [c] + q` with no `c` in `p`, the first `c` is the one after `p`. */
  lemma FirstIndexAfterPrefix(p: string, c: char, q: string)
    requires c !in p
    ensures FirstIndex(p + [c] + q, c) == |p|
  {
    var s := p + [c] + q;
    assert s[..|p|] == p;
    FirstIndexUnique(s, c, |p|);
  }

  predicate HasPrefix(s: string, prefix: string) {
    |prefix| <= |s| && s[..|prefix|] == prefix
  }

  /** `strings.SplitN(s, sep, 2)`: `[s]` when `sep` does not occur in `s`,
      otherwise the text before and the text after the first `sep`. */
  function SplitAtFirst(s: string, sep: char): (parts: seq<string>)
    ensures |parts| == 1 || |parts| == 2
    ensures |parts| == 1 <==> sep !in s
    ensures |parts| == 1 ==> parts[0] == s
    ensures |parts| == 2 ==> s == parts[0] + [sep] + parts[1] && sep !in parts[0]
  {
    var i := FirstIndex(s, sep);
    if i == |s| then [s]
    else
      assert s == s[..i] + [sep] + s[i + 1..];
      [s[..i], s[i + 1..]]
  }

  /** Splitting undoes gluing two parts together, provided the first holds no separator. */
  lemma SplitAtFirstOfJoin(p: string, sep: char, q: string)
    requires sep !in p
    ensures SplitAtFirst(p + [sep] + q, sep) == [p, q]
  {
    var s := p + [sep] + q;
    FirstIndexAfterPrefix(p, sep, q);
    assert s[..|p|] == p;
    assert s[|p| + 1..] == q;
  }

  /** `strings.Join(fields, string(sep))` for a non-empty list of fields. */
  function Join(fields: seq<string>, sep: char): string
    requires |fields| >= 1
  {
    if |fields| == 1 then fields[0] else fields[0] + [sep] + Join(fields[1..], sep)
  }

  /** `strings.Split(s, string(sep))`: the maximal `sep`-free fields of `s`. */
  function Split(s: string, sep: char): (fields: seq<string>)
    ensures |fields| >= 1
    ensures forall k :: 0 <= k < |fields| ==> sep !in fields[k]
    ensures Join(fields, sep) == s
    ensures |fields| == 1 <==> sep !in s
    decreases |s|
  {
    var i := FirstIndex(s, sep);
    if i == |s| then [s]
    else
      var rest := Split(s[i + 1..], sep);
      SplitStep(s, sep, i, rest);
      [s[..i]] + rest
  }

  /** One step of Split: the field before the first separator, followed by the
      fields of the text after it. */
  lemma SplitStep(s: string, sep: char, i: nat, rest: seq<string>)
    requires i < |s| && s[i] == sep && sep !in s[..i]
    requires |rest| >= 1 && Join(rest, sep) == s[i + 1..]
    requires forall k :: 0 <= k < |rest| ==> sep !in rest[k]
    ensures var fields := [s[..i]] + rest;
            |fields| >= 2
            && (forall k :: 0 <= k < |fields| ==> sep !in fields[k])
            && Join(fields, sep) == s
            && sep in s
  {
    var fields := [s[..i]] + rest;
    assert fields[1..] == rest;
    assert s == s[..i] + [sep] + s[i + 1..];
    forall k | 0 <= k < |fields|
      ensures sep !in fields[k]
    {
      if k > 0 {
        assert fields[k] == rest[k - 1];
      }
    }
  }

  /** Split is the inverse of Join on separator-free fields. */
  lemma {:induction false} SplitOfJoin(fields: seq<string>, sep: char)
    requires |fields| >= 1
    requires forall k :: 0 <= k < |fields| ==> sep !in fields[k]
    ensures Split(Join(fields, sep), sep) == fields
  {
    if |fields| > 1 {
      var first, rest := fields[0], fields[1..];
      assert forall k :: 0 <= k < |rest| ==> rest[k] == fields[k + 1];
      SplitOfJoin(rest, sep);
      var tail := Join(rest, sep);
      var s := first + [sep] + tail;
      assert Join(fields, sep) == s;
      FirstIndexAfterPrefix(first, sep, tail);
      assert s[..|first|] == first;
      assert s[|first| + 1..] == tail;
      assert Split(s, sep) == [first] + Split(tail, sep);
      assert fields == [first] + rest;
    }
  }

  /** Splitting two separator-free fields joined by the separator gives them back. */
  lemma SplitOfTwo(a: string, sep: char, b: string)
    requires sep !in a && sep !in b
    ensures Split(a + [sep] + b, sep) == [a, b]
  {
    var fields := [a, b];
    assert fields[1..] == [b];
    SplitOfJoin(fields, sep);
  }

  /** Splitting three separator-free fields joined by the separator gives them back. */
  lemma SplitOfThree(a: string, sep: char, b: string, c: string)
    requires sep !in a && sep !in b && sep !in c
    ensures Split(a + [sep] + b + [sep] + c, sep) == [a, b, c]
  {
    var fields := [a, b, c];
    assert fields[1..] == [b, c] && fields[1..][1..] == [c];
    assert Join(fields[1..], sep) == b + [sep] + c;
    assert a + [sep] + b + [sep] + c == a + [sep] + (b + [sep] + c);
    SplitOfJoin(fields, sep);
  }

  /** White space as Go's `unicode.IsSpace` defines it. */
  predicate IsSpace(c: char) {
    c == ' ' || c == '\t' || c == '\n' || c == '\U{000B}' || c == '\U{000C}' || c == '\r'
    || c == '\U{0085}' || c == '\U{00A0}' || c == '\U{1680}'
    || ('\U{2000}' <= c <= '\U{200A}')
    || c == '\U{2028}' || c == '\U{2029}' || c == '\U{202F}' || c == '\U{205F}' || c == '\U{3000}'
  }

  predicate AllSpace(s: string) {
    forall k :: 0 <= k < |s| ==> IsSpace(s[k])
  }

  /** `s` is empty or neither starts nor ends with white space. */
  predicate Unpadded(s: string) {
    s == [] || (!IsSpace(s[0]) && !IsSpace(s[|s| - 1]))
  }

  /** `strings.TrimLeftFunc(s, unicode.IsSpace)`. */
  function TrimLeft(s: string): string
  {
    if |s| > 0 && IsSpace(s[0]) then TrimLeft(s[1..]) else s
  }

  /** TrimLeft leaves a suffix of `s` that does not start with white space, and
      everything it drops is white space. */
  lemma {:induction false} TrimLeftIsSuffix(s: string)
    ensures var r := TrimLeft(s);
            |r| <= |s| && r == s[|s| - |r|..] && AllSpace(s[..|s| - |r|])
            && (r == [] || !IsSpace(r[0]))
  {
    if |s| > 0 && IsSpace(s[0]) {
      TrimLeftIsSuffix(s[1..]);
      var r := TrimLeft(s);
      assert s[..|s| - |r|] == [s[0]] + s[1..][..|s| - 1 - |r|];
    }
  }

  /** `strings.TrimRightFunc(s, unicode.IsSpace)`. */
  function TrimRight(s: string): string
  {
    if |s| > 0 && IsSpace(s[|s| - 1]) then TrimRight(s[..|s| - 1]) else s
  }

  /** TrimRight leaves a prefix of `s` that does not end with white space, and
      everything it drops is white space. */
  lemma {:induction false} TrimRightIsPrefix(s: string)
    ensures var r := TrimRight(s);
            |r| <= |s| && r == s[..|r|] && AllSpace(s[|r|..])
            && (r == [] || !IsSpace(r[|r| - 1]))
  {
    if |s| > 0 && IsSpace(s[|s| - 1]) {
      TrimRightIsPrefix(s[..|s| - 1]);
      var r := TrimRight(s);
      assert s[|r|..] == s[..|s| - 1][|r|..] + [s[|s| - 1]];
    }
  }

  /** `strings.TrimSpace`: `s` without its leading and trailing white space. */
  function TrimSpace(s: string): (r: string)
    ensures Unpadded(r)
    ensures |r| <= |s|
  {
    var t := TrimLeft(s);
    TrimLeftIsSuffix(s);
    TrimRightIsPrefix(t);
    var r := TrimRight(t);
    assert r != [] ==> r[0] == t[0];
    r
  }

  /** TrimSpace removes only white space: its result is the part of `s` between an
      all-space prefix and an all-space suffix. */
  lemma TrimSpaceStripsSpace(s: string)
    ensures var r, i := TrimSpace(s), |s| - |TrimLeft(s)|;
            0 <= i && i + |r| <= |s| && r == s[i..i + |r|] && AllSpace(s[..i]) && AllSpace(s[i + |r|..])
  {
    var t := TrimLeft(s);
    TrimLeftIsSuffix(s);
    TrimRightIsPrefix(t);
    var r, i := TrimSpace(s), |s| - |t|;
    assert r == t[..|r|];
    assert s[i + |r|..] == t[|r|..];
  }

  /** Dropping leading white space from `a + t` leaves `t` when `t` does not start with white space. */
  lemma {:induction false} TrimLeftOfSpaces(a: string, t: string)
    requires AllSpace(a) && (t == [] || !IsSpace(t[0]))
    ensures TrimLeft(a + t) == t
  {
    if a == [] {
      assert a + t == t;
    } else {
      assert (a + t)[1..] == a[1..] + t;
      TrimLeftOfSpaces(a[1..], t);
    }
  }

  /** Dropping trailing white space from `t + b` leaves `t` when `t` does not end with white space. */
  lemma {:induction false} TrimRightOfSpaces(t: string, b: string)
    requires AllSpace(b) && (t == [] || !IsSpace(t[|t| - 1]))
    ensures TrimRight(t + b) == t
  {
    if b == [] {
      assert t + b == t;
    } else {
      var s := t + b;
      assert s[..|s| - 1] == t + b[..|b| - 1];
      TrimRightOfSpaces(t, b[..|b| - 1]);
    }
  }

  /** TrimSpace recovers the unpadded text from between two runs of white space. */
  lemma TrimSpaceOfPadded(a: string, m: string, b: string)
    requires AllSpace(a) && AllSpace(b) && Unpadded(m)
    ensures TrimSpace(a + m + b) == m
  {
    if m == [] {
      assert a + m + b == (a + b) + [];
      TrimLeftOfSpaces(a + b, []);
    } else {
      assert a + m + b == a + (m + b);
      TrimLeftOfSpaces(a, m + b);
      TrimRightOfSpaces(m, b);
    }
  }
}
