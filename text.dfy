/** The string operations of Python that the integration relies on:
    `str.strip()`, `re.split` on a character class, `str.join`,
    `str.replace` of one character, and `str()` of an integer. */
module Text {

  /** Python's `str.isspace()` for one character: the ASCII controls TAB..CR,
      the information separators 0x1C..0x1F, SPACE, NEL, NBSP and the
      Unicode space separators and line/paragraph separators. */
  predicate IsSpace(c: char)
    ensures c == ' ' || '\t' <= c <= '\r' ==> IsSpace(c)
    ensures '!' <= c <= '~' ==> !IsSpace(c)
  {
    var n := c as int;
    (0x09 <= n <= 0x0D) || (0x1C <= n <= 0x20) || n == 0x85 || n == 0xA0 ||
    n == 0x1680 || (0x2000 <= n <= 0x200A) || n == 0x2028 || n == 0x2029 ||
    n == 0x202F || n == 0x205F || n == 0x3000
  }

  /** No character of `s` belongs to `cs`. */
  predicate Avoids(s: string, cs: set<char>) {
    forall k | 0 <= k < |s| :: s[k] !in cs
  }

  /** Number of whitespace characters at the start of `s`. */
  function LeadingSpaces(s: string): (n: nat)
    ensures n <= |s|
    ensures forall k | 0 <= k < n :: IsSpace(s[k])
    ensures n < |s| ==> !IsSpace(s[n])
  {
    if |s| > 0 && IsSpace(s[0]) then 1 + LeadingSpaces(s[1..]) else 0
  }

  /** Number of whitespace characters at the end of `s`. */
  function TrailingSpaces(s: string): (n: nat)
    ensures n <= |s|
    ensures forall k | |s| - n <= k < |s| :: IsSpace(s[k])
    ensures n < |s| ==> !IsSpace(s[|s| - 1 - n])
  {
    if |s| > 0 && IsSpace(s[|s| - 1]) then 1 + TrailingSpaces(s[..|s| - 1]) else 0
  }

  /** Python's `s.strip()`: `s` without the whitespace at either end. */
  function Strip(s: string): (r: string)
    ensures |r| <= |s|
    ensures LeadingSpaces(s) + |r| <= |s|
    ensures r == s[LeadingSpaces(s)..LeadingSpaces(s) + |r|]
    ensures forall k | 0 <= k < LeadingSpaces(s) :: IsSpace(s[k])
    ensures forall k | LeadingSpaces(s) + |r| <= k < |s| :: IsSpace(s[k])
    ensures r != [] ==> !IsSpace(r[0]) && !IsSpace(r[|r| - 1])
  {
    var t := s[LeadingSpaces(s)..];
    t[..|t| - TrailingSpaces(t)]
  }

  /** Stripping twice is stripping once. */
  lemma StripIdempotent(s: string)
    ensures Strip(Strip(s)) == Strip(s)
  {
    var r := Strip(s);
    if r != [] {
      assert LeadingSpaces(r) == 0;
      assert TrailingSpaces(r[LeadingSpaces(r)..]) == 0;
    }
  }

  /** `re.split("[...]", s)` for the separator characters `seps`: the pieces
      between separators, empty pieces included, always at least one. */
  function SplitOn(s: string, seps: set<char>): (r: seq<string>)
    ensures |r| >= 1
    ensures forall i | 0 <= i < |r| :: Avoids(r[i], seps)
    decreases |s|
  {
    if s == [] then [""]
    else
      var rest := SplitOn(s[1..], seps);
      if s[0] in seps then [""] + rest
      else [[s[0]] + rest[0]] + rest[1..]
  }

  /** A string without a separator is split into itself. */
  lemma {:induction false} SplitOnWhole(s: string, seps: set<char>)
    requires Avoids(s, seps)
    ensures SplitOn(s, seps) == [s]
    decreases |s|
  {
    if s != [] {
      SplitOnWhole(s[1..], seps);
      assert [s[0]] + s[1..] == s;
    }
  }

  /** Splitting at a separator splits the two sides independently:
      the pieces keep their left-to-right order. */
  lemma {:induction false} SplitOnConcat(a: string, c: char, b: string, seps: set<char>)
    requires c in seps
    ensures SplitOn(a + [c] + b, seps) == SplitOn(a, seps) + SplitOn(b, seps)
    decreases |a|
  {
    if a == [] {
      assert a + [c] + b == [c] + b;
      assert ([c] + b)[1..] == b;
    } else {
      assert (a + [c] + b)[1..] == a[1..] + [c] + b;
      SplitOnConcat(a[1..], c, b, seps);
    }
  }

  /** A string is a prefix of itself followed by anything. */
  lemma PrefixOfConcat(p: string, q: string, t: string)
    ensures p <= p + q + t
  {
    assert (p + q + t)[..|p|] == p;
  }

  /** Python's `sep.join(parts)`. */
  function Join(sep: string, parts: seq<string>): (r: string)
    ensures |parts| > 0 ==> parts[0] <= r
    ensures |parts| > 1 ==> |r| >= |parts[0]| + |sep|
    decreases |parts|
  {
    if |parts| == 0 then ""
    else if |parts| == 1 then parts[0]
    else parts[0] + sep + Join(sep, parts[1..])
  }

  /** A join contains only characters of its parts and of the separator. */
  lemma {:induction false} JoinAvoids(sep: string, parts: seq<string>, cs: set<char>)
    requires Avoids(sep, cs)
    requires forall i | 0 <= i < |parts| :: Avoids(parts[i], cs)
    ensures Avoids(Join(sep, parts), cs)
    decreases |parts|
  {
    if |parts| > 1 {
      JoinAvoids(sep, parts[1..], cs);
      var rest := Join(sep, parts[1..]);
      assert Join(sep, parts) == parts[0] + sep + rest;
      forall k | 0 <= k < |Join(sep, parts)| ensures Join(sep, parts)[k] !in cs {
        if k < |parts[0]| {
        } else if k < |parts[0]| + |sep| {
          assert Join(sep, parts)[k] == sep[k - |parts[0]|];
        } else {
          assert Join(sep, parts)[k] == rest[k - |parts[0]| - |sep|];
        }
      }
    }
  }

  /** Appending a part to a non-empty join adds the separator and the part. */
  lemma {:induction false} JoinSnoc(sep: string, parts: seq<string>, p: string)
    requires |parts| >= 1
    ensures Join(sep, parts + [p]) == Join(sep, parts) + sep + p
    decreases |parts|
  {
    if |parts| > 1 {
      assert (parts + [p])[1..] == parts[1..] + [p];
      JoinSnoc(sep, parts[1..], p);
    }
  }

  /** Joins of one, two and three parts written out. */
  lemma JoinSmall(sep: string, a: string, b: string, c: string)
    ensures Join(sep, [a]) == a
    ensures Join(sep, [a, b]) == a + sep + b
    ensures Join(sep, [a, b, c]) == a + sep + b + sep + c
  {
    assert [a, b][1..] == [b];
    assert [b, c][1..] == [c];
    assert Join(sep, [b, c]) == b + sep + c;
    assert [a, b, c][1..] == [b, c];
    assert Join(sep, [a, b, c]) == a + sep + (b + sep + c);
  }

  /** A permutation of parts that avoid some characters avoids them too. */
  lemma PermutationAvoids(a: seq<string>, b: seq<string>, cs: set<char>)
    requires multiset(a) == multiset(b)
    requires forall i | 0 <= i < |a| :: Avoids(a[i], cs)
    ensures forall i | 0 <= i < |b| :: Avoids(b[i], cs)
  {
    forall i | 0 <= i < |b| ensures Avoids(b[i], cs) {
      assert b[i] in multiset(a);
      var k :| 0 <= k < |a| && a[k] == b[i];
    }
  }

  /** Joining a permutation of parts that avoid some characters, with a
      separator that avoids them, avoids them too. */
  lemma JoinPermutationAvoids(sep: string, a: seq<string>, b: seq<string>, cs: set<char>)
    requires Avoids(sep, cs)
    requires multiset(a) == multiset(b)
    requires forall i | 0 <= i < |a| :: Avoids(a[i], cs)
    ensures Avoids(Join(sep, b), cs)
  {
    PermutationAvoids(a, b, cs);
    JoinAvoids(sep, b, cs);
  }

  /** Joining with one character and splitting at that character gives the
      parts back, provided no part contains it. */
  lemma {:induction false} SplitJoin(c: char, parts: seq<string>)
    requires |parts| >= 1
    requires forall i | 0 <= i < |parts| :: Avoids(parts[i], {c})
    ensures SplitOn(Join([c], parts), {c}) == parts
    decreases |parts|
  {
    if |parts| == 1 {
      SplitOnWhole(parts[0], {c});
    } else {
      SplitOnWhole(parts[0], {c});
      SplitJoin(c, parts[1..]);
      SplitOnConcat(parts[0], c, Join([c], parts[1..]), {c});
      assert [parts[0]] + parts[1..] == parts;
    }
  }

  /** Python's `s.replace(c, rep)` for a single character `c`. */
  function ReplaceChar(s: string, c: char, rep: string): (r: string)
    ensures |rep| >= 1 ==> |r| >= |s|
    ensures |rep| <= 1 ==> |r| <= |s|
    decreases |s|
  {
    if s == [] then ""
    else (if s[0] == c then rep else [s[0]]) + ReplaceChar(s[1..], c, rep)
  }

  /** On one character, replacement swaps `c` for `rep` and keeps anything else. */
  lemma ReplaceCharSingle(x: char, c: char, rep: string)
    ensures ReplaceChar([x], c, rep) == if x == c then rep else [x]
  {
    assert [x][1..] == [];
  }

  /** The inverse of `ReplaceChar`: every occurrence of `rep`, read from the
      left, becomes `c` again (what a form decoder does with `%3A`). */
  function Unreplace(s: string, c: char, rep: string): (r: string)
    requires |rep| > 0
    ensures |r| <= |s|
    decreases |s|
  {
    if s == [] then ""
    else if |rep| <= |s| && s[..|rep|] == rep then [c] + Unreplace(s[|rep|..], c, rep)
    else [s[0]] + Unreplace(s[1..], c, rep)
  }

  /** Replacement can be undone when the first character of `rep` does not
      occur in the input. */
  lemma {:induction false} UnreplaceInverts(s: string, c: char, rep: string)
    requires |rep| > 0 && rep[0] !in s
    ensures Unreplace(ReplaceChar(s, c, rep), c, rep) == s
    decreases |s|
  {
    if s != [] {
      var t := ReplaceChar(s[1..], c, rep);
      assert rep[0] !in s[1..] by { assert forall k | 0 <= k < |s[1..]| :: s[1..][k] == s[k + 1]; }
      UnreplaceInverts(s[1..], c, rep);
      if s[0] == c {
        var u := rep + t;
        assert ReplaceChar(s, c, rep) == u;
        assert u[..|rep|] == rep;
        assert u[|rep|..] == t;
        assert s == [c] + s[1..];
      } else {
        var u := [s[0]] + t;
        assert ReplaceChar(s, c, rep) == u;
        assert u[0] != rep[0];
        assert u[1..] == t;
        assert s == [s[0]] + s[1..];
      }
    }
  }

  /** After replacement no `c` is left, unless the replacement has one. */
  lemma {:induction false} ReplaceCharRemoves(s: string, c: char, rep: string)
    requires c !in rep
    ensures c !in ReplaceChar(s, c, rep)
    decreases |s|
  {
    if s != [] {
      ReplaceCharRemoves(s[1..], c, rep);
    }
  }

  /** A string without `c` is left as it is. */
  lemma {:induction false} ReplaceCharAbsent(s: string, c: char, rep: string)
    ensures c !in s ==> ReplaceChar(s, c, rep) == s
    decreases |s|
  {
    if s != [] && c !in s {
      assert c !in s[1..] by { assert forall k | 0 <= k < |s[1..]| :: s[1..][k] == s[k + 1]; }
      ReplaceCharAbsent(s[1..], c, rep);
      assert s == [s[0]] + s[1..];
    }
  }

  /** Replacement brings in no character that neither the input nor the
      replacement has. */
  lemma {:induction false} ReplaceCharKeepsOut(s: string, c: char, rep: string, x: char)
    requires x !in s && x !in rep
    ensures x !in ReplaceChar(s, c, rep)
    decreases |s|
  {
    if s != [] {
      assert x !in s[1..] by { assert forall k | 0 <= k < |s[1..]| :: s[1..][k] == s[k + 1]; }
      ReplaceCharKeepsOut(s[1..], c, rep, x);
    }
  }

  /** Replacement acts on each half of a concatenation separately. */
  lemma {:induction false} ReplaceCharConcat(a: string, b: string, c: char, rep: string)
    ensures ReplaceChar(a + b, c, rep) == ReplaceChar(a, c, rep) + ReplaceChar(b, c, rep)
    decreases |a|
  {
    if a != [] {
      var head := if a[0] == c then rep else [a[0]];
      var left := ReplaceChar(a[1..], c, rep);
      var right := ReplaceChar(b, c, rep);
      assert (a + b)[0] == a[0];
      assert (a + b)[1..] == a[1..] + b;
      assert ReplaceChar(a + b, c, rep) == head + ReplaceChar(a[1..] + b, c, rep);
      ReplaceCharConcat(a[1..], b, c, rep);
      assert head + (left + right) == (head + left) + right;
    } else {
      assert a + b == b;
    }
  }

  predicate IsDigits(s: string) {
    forall k | 0 <= k < |s| :: '0' <= s[k] <= '9'
  }

  function DigitChar(d: nat): (c: char)
    requires d < 10
    ensures '0' <= c <= '9'
  {
    ('0' as int + d) as char
  }

  /** Decimal rendering of a natural number, as `str(n)` gives it. */
  function NatToString(n: nat): (r: string)
    ensures |r| >= 1 && IsDigits(r)
    ensures r[0] == '0' ==> n == 0
    decreases n
  {
    if n < 10 then [DigitChar(n)] else NatToString(n / 10) + [DigitChar(n % 10)]
  }

  /** The number a string of decimal digits denotes. */
  function DigitsValue(s: string): (v: nat)
    requires IsDigits(s)
    decreases |s|
  {
    if s == [] then 0
    else DigitsValue(s[..|s| - 1]) * 10 + (s[|s| - 1] as int - '0' as int)
  }

  /** The decimal rendering reads back as the number. */
  lemma {:induction false} NatToStringRoundTrip(n: nat)
    ensures DigitsValue(NatToString(n)) == n
    decreases n
  {
    if n >= 10 {
      NatToStringRoundTrip(n / 10);
      var s := NatToString(n);
      assert s[..|s| - 1] == NatToString(n / 10);
    }
  }

  /** `str(i)` for an integer: a minus sign before the digits when negative. */
  function IntToString(i: int): (r: string)
    ensures |r| >= 1
    ensures i >= 0 <==> r[0] != '-'
  {
    if i < 0 then "-" + NatToString(-i) else NatToString(i)
  }

  /** Different integers render differently. */
  lemma IntToStringInjective(a: int, b: int)
    requires IntToString(a) == IntToString(b)
    ensures a == b
  {
    assert IntToString(a)[0] == IntToString(b)[0];
    if a >= 0 {
      assert NatToString(a) == NatToString(b);
      NatToStringRoundTrip(a);
      NatToStringRoundTrip(b);
    } else {
      assert NatToString(-a) == IntToString(a)[1..] == IntToString(b)[1..] == NatToString(-b);
      NatToStringRoundTrip(-a);
      NatToStringRoundTrip(-b);
    }
  }
}
