/**
 * Character classes and the handful of Python `str` operations the three
 * scripts use: `in`, `startswith`, `strip()`, slicing `[:n]`, `replace`, `str(int)`,
 * `c * n`, and the substitution `re.sub('[...]+', ' ', s)`.
 */
module Text {
  import Seqs

  /** Python's `str.isspace()`: what `strip()` removes and what `\s` matches. */
  predicate IsSpace(c: char) {
    var n := c as int;
    (9 <= n <= 13) || (28 <= n <= 32) || n == 0x85 || n == 0xA0 || n == 0x1680
    || (0x2000 <= n <= 0x200A) || n == 0x2028 || n == 0x2029 || n == 0x202F
    || n == 0x205F || n == 0x3000
  }

  /** A character that survives `.encode('ascii', 'ignore')`. */
  predicate IsAscii(c: char) {
    (c as int) < 128
  }

  predicate IsDigit(c: char) {
    '0' <= c <= '9'
  }

  predicate StartsWith(s: string, p: string) {
    |p| <= |s| && s[..|p|] == p
  }

  predicate EndsWith(s: string, p: string) {
    |p| <= |s| && s[|s| - |p|..] == p
  }

  /** `p in s`: some window of `s` spells `p`. */
  predicate Contains(s: string, p: string)
    decreases |s|
  {
    StartsWith(s, p) || (|s| > 0 && Contains(s[1..], p))
  }

  lemma {:induction false} ContainsAt(s: string, p: string, i: nat)
    requires i + |p| <= |s| && s[i..i + |p|] == p
    ensures Contains(s, p)
    decreases i
  {
    if i > 0 {
      assert s[1..][i - 1..i - 1 + |p|] == s[i..i + |p|];
      ContainsAt(s[1..], p, i - 1);
    }
  }

  lemma {:induction false} ContainsWitness(s: string, p: string) returns (i: nat)
    requires Contains(s, p)
    ensures i + |p| <= |s| && s[i..i + |p|] == p
    decreases |s|
  {
    if StartsWith(s, p) {
      i := 0;
    } else {
      var j := ContainsWitness(s[1..], p);
      assert s[1..][j..j + |p|] == s[j + 1..j + 1 + |p|];
      i := j + 1;
    }
  }

  lemma StartsWithSplit(s: string, p: string)
    requires StartsWith(s, p)
    ensures s == p + s[|p|..]
  {
    assert s == s[..|p|] + s[|p|..];
  }

  /** A string contains whatever is written in its middle. */
  lemma ContainsMiddle(a: string, p: string, b: string)
    ensures Contains(a + p + b, p)
  {
    var s := a + p + b;
    assert s[|a|..|a| + |p|] == p;
    ContainsAt(s, p, |a|);
  }

  /** The window of `s` starting at `i` spells `p`. */
  predicate OccursAt(s: string, p: string, i: nat) {
    i + |p| <= |s| && s[i..i + |p|] == p
  }

  /** A string none of whose windows spells `p` does not contain `p`. */
  lemma NoOccurrence(s: string, p: string)
    requires forall i: nat :: !OccursAt(s, p, i)
    ensures !Contains(s, p)
  {
    if Contains(s, p) {
      var i := ContainsWitness(s, p);
      assert OccursAt(s, p, i);
      assert false;
    }
  }

  /** A string lacking one of the characters of `p` does not contain `p`. */
  lemma MissingChar(s: string, p: string, j: nat)
    requires j < |p| && forall k :: 0 <= k < |s| ==> s[k] != p[j]
    ensures !Contains(s, p)
  {
    forall i: nat | i + |p| <= |s|
      ensures !OccursAt(s, p, i)
    {
      assert s[i..i + |p|][j] == s[i + j] != p[j];
    }
    NoOccurrence(s, p);
  }

  /** `s[:n]` for `n >= 0`. */
  function Take(s: string, n: nat): (r: string)
    ensures |r| <= n && |r| <= |s|
    ensures |s| <= n ==> r == s
    ensures r == s[..|r|]
  {
    if |s| <= n then s else s[..n]
  }

  // ---------------------------------------------------------------------------
  // strip()

  /** The number of whitespace characters at the front of `s`. */
  function LeadingSpaces(s: string): (k: nat)
    ensures k <= |s|
    ensures forall i :: 0 <= i < k ==> IsSpace(s[i])
    ensures k < |s| ==> !IsSpace(s[k])
  {
    if s != [] && IsSpace(s[0]) then 1 + LeadingSpaces(s[1..]) else 0
  }

  /** `s.lstrip()`. */
  function LStrip(s: string): (r: string)
  {
    s[LeadingSpaces(s)..]
  }

  /** `s.rstrip()`. */
  function RStrip(s: string): (r: string)
    ensures |r| <= |s| && r == s[..|r|]
    ensures forall i :: |r| <= i < |s| ==> IsSpace(s[i])
    ensures r != [] ==> !IsSpace(r[|r| - 1])
  {
    if s != [] && IsSpace(s[|s| - 1]) then RStrip(s[..|s| - 1]) else s
  }

  /**
   * `s.strip()`: the longest infix of `s` that neither begins nor ends with
   * whitespace, everything around it being whitespace.
   */
  function Strip(s: string): (r: string)
    ensures LeadingSpaces(s) + |r| <= |s|
    ensures r == s[LeadingSpaces(s)..LeadingSpaces(s) + |r|]
    ensures forall i :: 0 <= i < LeadingSpaces(s) ==> IsSpace(s[i])
    ensures forall i :: LeadingSpaces(s) + |r| <= i < |s| ==> IsSpace(s[i])
    ensures r != [] ==> !IsSpace(r[0]) && !IsSpace(r[|r| - 1])
  {
    RStrip(LStrip(s))
  }

  /** A string with no whitespace at either end is its own `strip()`. */
  lemma StripOfStripped(s: string)
    requires s != [] ==> !IsSpace(s[0]) && !IsSpace(s[|s| - 1])
    ensures Strip(s) == s
  {
    assert LeadingSpaces(s) == 0;
    assert LStrip(s) == s;
    if s != [] {
      assert RStrip(s) == s;
    }
  }

  /** `strip()` is idempotent. */
  lemma StripIdempotent(s: string)
    ensures Strip(Strip(s)) == Strip(s)
  {
    StripOfStripped(Strip(s));
  }

  /** Removing what `strip()` removes loses none of the characters `keep` selects. */
  lemma StripKeeps(s: string, keep: char -> bool)
    requires forall c :: IsSpace(c) ==> !keep(c)
    ensures Seqs.Filter(keep, Strip(s)) == Seqs.Filter(keep, s)
  {
    var a := LeadingSpaces(s);
    var r := Strip(s);
    var b := a + |r|;
    assert s == s[..a] + r + s[b..];
    Seqs.FilterInfix(keep, s[..a], r, s[b..]);
  }

  // ---------------------------------------------------------------------------
  // re.sub('[<class>]+', ' ', s)

  /** How many characters at the front of `s` belong to the class. */
  function RunLength(s: string, inClass: char -> bool): (k: nat)
    ensures k <= |s|
    ensures forall i :: 0 <= i < k ==> inClass(s[i])
    ensures k < |s| ==> !inClass(s[k])
  {
    if s != [] && inClass(s[0]) then 1 + RunLength(s[1..], inClass) else 0
  }

  /**
   * `re.sub('[<class>]+', ' ', s)`: every maximal run of class characters
   * becomes one space; every other character is kept.
   */
  function SubRuns(s: string, inClass: char -> bool): (r: string)
    ensures |r| <= |s|
    ensures s != [] ==> r != [] && r[0] == (if inClass(s[0]) then ' ' else s[0])
    decreases |s|
  {
    if s == [] then []
    else if inClass(s[0]) then " " + SubRuns(s[RunLength(s, inClass)..], inClass)
    else [s[0]] + SubRuns(s[1..], inClass)
  }

  /**
   * What comes out of the substitution holds class characters only as the
   * single spaces that replaced runs, never two in a row, and otherwise only
   * characters of the input.
   */
  lemma {:induction false} SubRunsShape(s: string, inClass: char -> bool)
    ensures forall i :: 0 <= i < |SubRuns(s, inClass)| ==>
      SubRuns(s, inClass)[i] == ' ' || (!inClass(SubRuns(s, inClass)[i]) && SubRuns(s, inClass)[i] in s)
    ensures forall i :: 0 <= i < |SubRuns(s, inClass)| - 1 && inClass(SubRuns(s, inClass)[i]) ==>
      !inClass(SubRuns(s, inClass)[i + 1])
    decreases |s|
  {
    if s != [] {
      var k := if inClass(s[0]) then RunLength(s, inClass) else 1;
      var head := if inClass(s[0]) then ' ' else s[0];
      var rest := SubRuns(s[k..], inClass);
      var r := SubRuns(s, inClass);
      assert r == [head] + rest;
      SubRunsShape(s[k..], inClass);

      forall i | 0 <= i < |r|
        ensures r[i] == ' ' || (!inClass(r[i]) && r[i] in s)
      {
        if i > 0 {
          var c := rest[i - 1];
          assert r[i] == c;
          assert c == ' ' || (!inClass(c) && c in s[k..]);
          if c != ' ' {
            var j :| 0 <= j < |s[k..]| && s[k..][j] == c;
            assert s[k + j] == c;
          }
        } else {
          assert r[0] == head;
        }
      }
      forall i | 0 <= i < |r| - 1 && inClass(r[i])
        ensures !inClass(r[i + 1])
      {
        if i > 0 {
          assert r[i] == rest[i - 1] && r[i + 1] == rest[i];
        } else {
          assert inClass(s[0]) && k == RunLength(s, inClass);
          assert |s[k..]| >= |rest| > 0;
          assert r[1] == rest[0] == s[k];
        }
      }
    }
  }

  lemma {:induction false} RunLengthAppend(u: string, v: string, inClass: char -> bool)
    ensures RunLength(u + v, inClass) ==
      if RunLength(u, inClass) < |u| then RunLength(u, inClass) else |u| + RunLength(v, inClass)
    decreases |u|
  {
    if u == [] {
      assert u + v == v;
    } else if inClass(u[0]) {
      assert (u + v)[1..] == u[1..] + v;
      RunLengthAppend(u[1..], v, inClass);
    }
  }

  /** The substitution works piece by piece across a cut that does not split a run. */
  lemma {:induction false} SubRunsAppend(u: string, v: string, inClass: char -> bool)
    requires u == [] || v == [] || !inClass(u[|u| - 1]) || !inClass(v[0])
    ensures SubRuns(u + v, inClass) == SubRuns(u, inClass) + SubRuns(v, inClass)
    decreases |u|, 2
  {
    if u == [] {
      assert u + v == v;
    } else if !inClass(u[0]) {
      assert (u + v)[0] == u[0];
      assert (u + v)[1..] == u[1..] + v;
      SubRunsAppend(u[1..], v, inClass);
      ConcatAssoc([u[0]], SubRuns(u[1..], inClass), SubRuns(v, inClass));
    } else {
      SubRunsAppendRun(u, v, inClass);
    }
  }

  lemma {:induction false} SubRunsAppendRun(u: string, v: string, inClass: char -> bool)
    requires u != [] && inClass(u[0])
    requires v == [] || !inClass(u[|u| - 1]) || !inClass(v[0])
    ensures SubRuns(u + v, inClass) == SubRuns(u, inClass) + SubRuns(v, inClass)
    decreases |u|, 1
  {
    if RunLength(u, inClass) < |u| {
      SubRunsAppendPartRun(u, v, inClass);
    } else {
      AppendWholeRun(u, v, inClass);
    }
  }

  /** The leading run of `u` ends inside `u`: the rest of `u` carries the induction. */
  lemma {:induction false} SubRunsAppendPartRun(u: string, v: string, inClass: char -> bool)
    requires u != [] && inClass(u[0]) && RunLength(u, inClass) < |u|
    requires v == [] || !inClass(u[|u| - 1]) || !inClass(v[0])
    ensures SubRuns(u + v, inClass) == SubRuns(u, inClass) + SubRuns(v, inClass)
    decreases |u|, 0
  {
    var k := RunLength(u, inClass);
    var w := u + v;
    assert w[0] == u[0];
    assert w[k..] == u[k..] + v;
    calc {
      SubRuns(w, inClass);
    == { RunLengthPrefix(u, v, inClass); SubRunsOfRun(w, inClass); }
      " " + SubRuns(w[k..], inClass);
    == { SubRunsAppend(u[k..], v, inClass); }
      " " + (SubRuns(u[k..], inClass) + SubRuns(v, inClass));
    == { ConcatAssoc(" ", SubRuns(u[k..], inClass), SubRuns(v, inClass)); }
      (" " + SubRuns(u[k..], inClass)) + SubRuns(v, inClass);
    == { SubRunsOfRun(u, inClass); }
      SubRuns(u, inClass) + SubRuns(v, inClass);
    }
  }

  lemma ConcatAssoc(a: string, b: string, c: string)
    ensures a + (b + c) == (a + b) + c
  {
  }

  /** A string that begins in the class begins with one space for its whole leading run. */
  lemma SubRunsOfRun(s: string, inClass: char -> bool)
    requires s != [] && inClass(s[0])
    ensures SubRuns(s, inClass) == " " + SubRuns(s[RunLength(s, inClass)..], inClass)
  {
  }

  lemma RunLengthPrefix(u: string, v: string, inClass: char -> bool)
    requires RunLength(u, inClass) < |u|
    ensures RunLength(u + v, inClass) == RunLength(u, inClass)
  {
    RunLengthAppend(u, v, inClass);
  }

  lemma AppendWholeRun(u: string, v: string, inClass: char -> bool)
    requires u != [] && forall i :: 0 <= i < |u| ==> inClass(u[i])
    requires v == [] || !inClass(v[0])
    ensures SubRuns(u + v, inClass) == SubRuns(u, inClass) + SubRuns(v, inClass)
  {
    RunBecomesSpace(u, inClass);
    RunLengthAppend(u, v, inClass);
    assert RunLength(v, inClass) == 0;
    assert (u + v)[|u|..] == v;
  }

  /** A whole run, however long, becomes a single space. */
  lemma RunBecomesSpace(run: string, inClass: char -> bool)
    requires run != [] && forall i :: 0 <= i < |run| ==> inClass(run[i])
    ensures SubRuns(run, inClass) == " "
  {
    assert RunLength(run, inClass) == |run|;
    assert run[|run|..] == [];
  }

  /** A string whose class characters are already lone spaces is left as it is. */
  lemma {:induction false} SubRunsFixed(s: string, inClass: char -> bool)
    requires forall i :: 0 <= i < |s| && inClass(s[i]) ==> s[i] == ' '
    requires forall i :: 0 <= i < |s| - 1 && inClass(s[i]) ==> !inClass(s[i + 1])
    ensures SubRuns(s, inClass) == s
    decreases |s|
  {
    if s != [] {
      if inClass(s[0]) {
        assert RunLength(s[1..], inClass) == 0;
      }
      SubRunsFixed(s[1..], inClass);
      assert s == [s[0]] + s[1..];
    }
  }

  /** No character of `s` is in the class. */
  predicate NoneIn(s: string, inClass: char -> bool) {
    forall i :: 0 <= i < |s| ==> !inClass(s[i])
  }

  lemma NoneInAppend(a: string, b: string, inClass: char -> bool)
    requires NoneIn(a, inClass) && NoneIn(b, inClass)
    ensures NoneIn(a + b, inClass)
  {
    forall i | 0 <= i < |a + b|
      ensures !inClass((a + b)[i])
    {
      if i >= |a| {
        assert (a + b)[i] == b[i - |a|];
      }
    }
  }

  /** Characters outside the class, appended, are copied. */
  lemma SubRunsAppendPlain(u: string, w: string, inClass: char -> bool)
    requires NoneIn(w, inClass)
    ensures SubRuns(u + w, inClass) == SubRuns(u, inClass) + w
  {
    if w == [] {
      assert u + w == u;
    } else {
      SubRunsFixed(w, inClass);
      SubRunsAppend(u, w, inClass);
    }
  }

  /** A run of class characters, appended after a character outside the class, becomes one space. */
  lemma SubRunsAppendClass(u: string, run: string, inClass: char -> bool)
    requires run != [] && forall i :: 0 <= i < |run| ==> inClass(run[i])
    requires u == [] || !inClass(u[|u| - 1])
    ensures SubRuns(u + run, inClass) == SubRuns(u, inClass) + " "
  {
    RunBecomesSpace(run, inClass);
    SubRunsAppend(u, run, inClass);
  }

  /** The substitution loses none of the characters `keep` selects, and adds none. */
  lemma {:induction false} SubRunsKeeps(s: string, inClass: char -> bool, keep: char -> bool)
    requires forall c :: inClass(c) ==> !keep(c)
    requires !keep(' ')
    ensures Seqs.Filter(keep, SubRuns(s, inClass)) == Seqs.Filter(keep, s)
    decreases |s|
  {
    if s != [] {
      if inClass(s[0]) {
        var k := RunLength(s, inClass);
        SubRunsKeeps(s[k..], inClass, keep);
        SubRunsOfRun(s, inClass);
        Seqs.FilterDropPrefix(keep, " ", SubRuns(s[k..], inClass));
        Seqs.FilterDropFront(keep, s, k);
      } else {
        SubRunsKeeps(s[1..], inClass, keep);
        assert SubRuns(s, inClass) == [s[0]] + SubRuns(s[1..], inClass);
        Seqs.FilterCons(keep, s[0], SubRuns(s[1..], inClass));
        assert s == [s[0]] + s[1..];
        Seqs.FilterCons(keep, s[0], s[1..]);
      }
    }
  }

  // ---------------------------------------------------------------------------
  // replace()

  /** The non-overlapping, left-to-right occurrences of `p` that `replace` rewrites. */
  function Occurrences(s: string, p: string): nat
    requires |p| > 0
    decreases |s|
  {
    if |s| < |p| then 0
    else if s[..|p|] == p then 1 + Occurrences(s[|p|..], p)
    else Occurrences(s[1..], p)
  }

  /** `s.replace(p, q)` for a non-empty `p`. */
  function ReplaceAll(s: string, p: string, q: string): (r: string)
    requires |p| > 0
    decreases |s|
  {
    if |s| < |p| then s
    else if s[..|p|] == p then q + ReplaceAll(s[|p|..], p, q)
    else [s[0]] + ReplaceAll(s[1..], p, q)
  }

  /** Each rewritten occurrence changes the length by `|q| - |p|`. */
  lemma {:induction false} ReplaceAllLength(s: string, p: string, q: string)
    requires |p| > 0
    ensures |ReplaceAll(s, p, q)| == |s| + Occurrences(s, p) * (|q| - |p|)
    decreases |s|
  {
    if |s| < |p| {
    } else if s[..|p|] == p {
      ReplaceAllLength(s[|p|..], p, q);
      var k := Occurrences(s[|p|..], p);
      assert ReplaceAll(s, p, q) == q + ReplaceAll(s[|p|..], p, q);
      assert Occurrences(s, p) == 1 + k;
      MulSucc(k, |q| - |p|);
    } else {
      ReplaceAllLength(s[1..], p, q);
      assert ReplaceAll(s, p, q) == [s[0]] + ReplaceAll(s[1..], p, q);
    }
  }

  lemma MulSucc(k: int, d: int)
    ensures (1 + k) * d == d + k * d
  {
  }

  /** `replace` finds something to rewrite exactly when `p in s`. */
  lemma {:induction false} OccurrencesIffContains(s: string, p: string)
    requires |p| > 0
    ensures Occurrences(s, p) > 0 <==> Contains(s, p)
    decreases |s|
  {
    if |s| < |p| {
      if Contains(s, p) {
        var i := ContainsWitness(s, p);
      }
    } else if s[..|p|] == p {
    } else {
      OccurrencesIffContains(s[1..], p);
    }
  }

  /** A string without `p` is unchanged by `replace(p, q)`. */
  lemma {:induction false} ReplaceAbsent(s: string, p: string, q: string)
    requires |p| > 0 && !Contains(s, p)
    ensures ReplaceAll(s, p, q) == s
    decreases |s|
  {
    if |s| >= |p| {
      ReplaceAbsent(s[1..], p, q);
    }
  }

  /** The first index of `c` in `s`, or `|s|` when there is none. */
  function IndexOf(s: string, c: char): (k: nat)
    ensures k <= |s|
    ensures k < |s| ==> s[k] == c
    ensures forall i :: 0 <= i < k ==> s[i] != c
  {
    if s == [] || s[0] == c then 0 else 1 + IndexOf(s[1..], c)
  }

  /** A prefix without `c` shifts the first index of `c` by its length. */
  lemma {:induction false} IndexOfAppend(a: string, b: string, c: char)
    requires forall i :: 0 <= i < |a| ==> a[i] != c
    ensures IndexOf(a + b, c) == |a| + IndexOf(b, c)
    decreases |a|
  {
    if a != [] {
      assert (a + b)[1..] == a[1..] + b;
      IndexOfAppend(a[1..], b, c);
    } else {
      assert a + b == b;
    }
  }

  /** `c * n`. */
  function Repeat(c: char, n: nat): (r: string)
    ensures |r| == n && forall i :: 0 <= i < n ==> r[i] == c
  {
    if n == 0 then [] else Repeat(c, n - 1) + [c]
  }

  // ---------------------------------------------------------------------------
  // str(int)

  function DigitChar(d: nat): (c: char)
    requires d < 10
    ensures IsDigit(c)
  {
    ('0' as int + d) as char
  }

  function DigitValue(c: char): nat
    requires IsDigit(c)
  {
    c as int - '0' as int
  }

  /** `str(n)` for `n >= 0`: decimal digits, most significant first. */
  function NatToString(n: nat): (r: string)
    ensures |r| > 0 && forall i :: 0 <= i < |r| ==> IsDigit(r[i])
    ensures |r| > 1 ==> r[0] != '0'
  {
    if n < 10 then [DigitChar(n)] else NatToString(n / 10) + [DigitChar(n % 10)]
  }

  /** `str(n)`: a minus sign before the digits of a negative number. */
  function IntToString(n: int): (r: string)
    ensures r != [] && r[0] != '-' ==> n >= 0
  {
    if n < 0 then "-" + NatToString(-n) else NatToString(n)
  }

  predicate AllDigits(s: string) {
    forall i :: 0 <= i < |s| ==> IsDigit(s[i])
  }

  /** The value a string of decimal digits denotes. */
  function DigitsValue(s: string): nat
    requires AllDigits(s)
  {
    if s == [] then 0 else 10 * DigitsValue(s[..|s| - 1]) + DigitValue(s[|s| - 1])
  }

  /** `int(s)` for what `str` produces: an optional minus sign, then digits. */
  function DecimalValue(s: string): int
    requires (s != [] && s[0] == '-' && AllDigits(s[1..])) || AllDigits(s)
  {
    if s != [] && s[0] == '-' then -(DigitsValue(s[1..]) as int) else DigitsValue(s)
  }

  lemma {:induction false} NatToStringRoundTrip(n: nat)
    ensures AllDigits(NatToString(n)) && DigitsValue(NatToString(n)) == n
  {
    if n >= 10 {
      NatToStringRoundTrip(n / 10);
      var s := NatToString(n);
      assert s[..|s| - 1] == NatToString(n / 10);
    }
  }

  /** `int(str(n)) == n`. */
  lemma IntToStringRoundTrip(n: int)
    ensures var s := IntToString(n);
      ((s != [] && s[0] == '-' && AllDigits(s[1..])) || AllDigits(s)) && DecimalValue(s) == n
  {
    if n < 0 {
      NatToStringRoundTrip(-n);
      assert IntToString(n)[1..] == NatToString(-n);
    } else {
      NatToStringRoundTrip(n);
    }
  }
}
