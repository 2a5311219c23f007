/** The Python string and integer operations the pipeline relies on:
    `int()` of a run of digits, `str()` of a non-negative integer, the
    `{:02d}` format, `str.split`, `str.join`, `str.replace` and counting a
    character. Only the ASCII digits '0'..'9' are digits here. */
module Text {

  predicate IsDigit(c: char) {
    '0' <= c <= '9'
  }

  /** Every character of `s` is a digit (`s` may be empty). */
  predicate AllDigits(s: string) {
    forall i :: 0 <= i < |s| ==> IsDigit(s[i])
  }

  /** The regular expression `\d+`: a non-empty run of digits. */
  predicate IsDigitRun(s: string) {
    |s| > 0 && AllDigits(s)
  }

  function DigitChar(d: nat): (c: char)
    requires d < 10
    ensures IsDigit(c) && c as int - '0' as int == d
  {
    ('0' as int + d) as char
  }

  /** `int(s)` for a string of digits; leading zeros are allowed. */
  function DigitsValue(s: string): nat
    requires AllDigits(s)
  {
    if s == [] then 0
    else 10 * DigitsValue(s[..|s| - 1]) + (s[|s| - 1] as int - '0' as int)
  }

  /** `str(n)` for a non-negative integer: its decimal digits, most
      significant first, without leading zeros. */
  function ShowNat(n: nat): (s: string)
    ensures IsDigitRun(s)
    ensures |s| == 1 <==> n < 10
  {
    if n < 10 then [DigitChar(n)] else ShowNat(n / 10) + [DigitChar(n % 10)]
  }

  /** `f"{m:02d}"`: the decimal digits of `m`, padded with a zero to at
      least two characters. */
  function ZeroPad2(m: nat): (s: string)
    ensures IsDigitRun(s)
    ensures m < 100 ==> |s| == 2
  {
    if m < 10 then ['0'] + ShowNat(m) else ShowNat(m)
  }

  /** Reading back the digits `str` writes gives the number: `int(str(n)) == n`. */
  lemma {:induction false} ShowNatRoundTrip(n: nat)
    ensures DigitsValue(ShowNat(n)) == n
  {
    if n >= 10 {
      var s := ShowNat(n);
      assert s[..|s| - 1] == ShowNat(n / 10);
      ShowNatRoundTrip(n / 10);
    }
  }

  lemma ShowNatInjective(a: nat, b: nat)
    ensures ShowNat(a) == ShowNat(b) ==> a == b
  {
    ShowNatRoundTrip(a);
    ShowNatRoundTrip(b);
  }

  /** The padding zero does not change the value: `int(f"{m:02d}") == m`. */
  lemma ZeroPad2RoundTrip(m: nat)
    ensures DigitsValue(ZeroPad2(m)) == m
  {
    ShowNatRoundTrip(m);
    if m < 10 {
      var s := ZeroPad2(m);
      assert s[..|s| - 1] == "0";
      assert "0"[..0] == "";
    }
  }

  lemma NotDigitRunWith(s: string, i: nat)
    requires i < |s| && !IsDigit(s[i])
    ensures !IsDigitRun(s)
  {
  }

  /** Position of the first occurrence of `c` in `s`. */
  function IndexOf(s: string, c: char): (k: nat)
    requires c in s
    ensures k < |s| && s[k] == c && c !in s[..k]
  {
    if s[0] == c then 0
    else
      assert s[..IndexOf(s[1..], c) + 1] == [s[0]] + s[1..][..IndexOf(s[1..], c)];
      1 + IndexOf(s[1..], c)
  }

  /** The first `c` of `a + [c] + b` is the one after `a` when `a` holds none. */
  lemma IndexOfAfter(a: string, b: string, c: char)
    requires c !in a
    ensures IndexOf(a + [c] + b, c) == |a|
  {
    var s := a + [c] + b;
    assert s[|a|] == c;
  }

  /** `s.split(sep)` for a one-character separator: the pieces between the
      separators, in order; there is always at least one piece. */
  function Split(s: string, sep: char): (fields: seq<string>)
    ensures |fields| >= 1
    ensures forall i :: 0 <= i < |fields| ==> sep !in fields[i]
    decreases |s|
  {
    if sep !in s then [s]
    else
      var k := IndexOf(s, sep);
      [s[..k]] + Split(s[k + 1..], sep)
  }

  /** `sep.join(parts)`. */
  function Join(parts: seq<string>, sep: string): string {
    if |parts| == 0 then ""
    else if |parts| == 1 then parts[0]
    else parts[0] + sep + Join(parts[1..], sep)
  }

  /** Joining with `sep` and splitting on it again gives the parts back,
      provided no part holds the separator. */
  lemma {:induction false} SplitJoin(parts: seq<string>, sep: char)
    requires |parts| >= 1
    requires forall i :: 0 <= i < |parts| ==> sep !in parts[i]
    ensures Split(Join(parts, [sep]), sep) == parts
  {
    if |parts| > 1 {
      var head, rest := parts[0], Join(parts[1..], [sep]);
      var s := head + [sep] + rest;
      assert Join(parts, [sep]) == s;
      IndexOfAfter(head, rest, sep);
      assert s[..|head|] == head;
      assert s[|head| + 1..] == rest;
      SplitJoin(parts[1..], sep);
      assert Split(s, sep) == [head] + Split(rest, sep);
      assert parts == [head] + parts[1..];
    } else {
      assert sep !in parts[0];
    }
  }

  /** Splitting and joining back with the same separator gives the string back. */
  lemma {:induction false} JoinSplit(s: string, sep: char)
    ensures Join(Split(s, sep), [sep]) == s
    decreases |s|
  {
    if sep in s {
      var k := IndexOf(s, sep);
      SplitAtFirst(s, sep);
      JoinSplit(s[k + 1..], sep);
      JoinCons(s[..k], Split(s[k + 1..], sep), [sep]);
    }
  }

  /** A string holding `sep` splits into the piece before its first `sep`
      and the split of the rest. */
  lemma SplitAtFirst(s: string, sep: char)
    requires sep in s
    ensures var k := IndexOf(s, sep);
      && Split(s, sep) == [s[..k]] + Split(s[k + 1..], sep)
      && s == s[..k] + [sep] + s[k + 1..]
  {
  }

  lemma JoinCons(head: string, rest: seq<string>, sep: string)
    requires |rest| >= 1
    ensures Join([head] + rest, sep) == head + sep + Join(rest, sep)
  {
    assert ([head] + rest)[1..] == rest;
  }

  /** A character in neither the parts nor the separator is not in the join. */
  lemma {:induction false} JoinExcludes(parts: seq<string>, sep: string, c: char)
    requires c !in sep
    requires forall i :: 0 <= i < |parts| ==> c !in parts[i]
    ensures c !in Join(parts, sep)
  {
    if |parts| > 1 {
      JoinExcludes(parts[1..], sep, c);
    }
  }

  lemma {:induction false} JoinSnoc(parts: seq<string>, sep: string, last: string)
    requires |parts| >= 1
    ensures Join(parts + [last], sep) == Join(parts, sep) + sep + last
  {
    if |parts| > 1 {
      assert (parts + [last])[1..] == parts[1..] + [last];
      JoinSnoc(parts[1..], sep, last);
    }
  }

  /** Concatenation regroups freely. */
  lemma Associative<T>(a: seq<T>, b: seq<T>, c: seq<T>)
    ensures a + b + c == a + (b + c)
  {
  }

  /** `s.count(c)` for one character. */
  function CountChar(s: string, c: char): nat {
    if s == [] then 0 else (if s[0] == c then 1 else 0) + CountChar(s[1..], c)
  }

  lemma {:induction false} CountCharConcat(a: string, b: string, c: char)
    ensures CountChar(a + b, c) == CountChar(a, c) + CountChar(b, c)
  {
    if a == [] {
      assert a + b == b;
    } else {
      assert (a + b)[1..] == a[1..] + b;
      CountCharConcat(a[1..], b, c);
    }
  }

  lemma {:induction false} CountCharAbsent(s: string, c: char)
    requires c !in s
    ensures CountChar(s, c) == 0
  {
    if s != [] {
      CountCharAbsent(s[1..], c);
    }
  }

  /** Text without `c` on either side adds no `c`. */
  lemma CountCharAround(a: string, m: string, b: string, c: char)
    requires c !in a && c !in b
    ensures CountChar(a + m + b, c) == CountChar(m, c)
  {
    CountCharConcat(a, m, c);
    CountCharConcat(a + m, b, c);
    CountCharAbsent(a, c);
    CountCharAbsent(b, c);
  }

  /** `s.replace(pat, rep)`: every occurrence of `pat`, scanning from the
      left and not overlapping, replaced by `rep`. */
  function ReplaceAll(s: string, pat: string, rep: string): string
    requires |pat| > 0
    decreases |s|
  {
    if |s| < |pat| then s
    else if s[..|pat|] == pat then rep + ReplaceAll(s[|pat|..], pat, rep)
    else [s[0]] + ReplaceAll(s[1..], pat, rep)
  }

  /** A character absent from the text and from the replacement stays absent. */
  lemma {:induction false} ReplaceAllExcludes(s: string, pat: string, rep: string, c: char)
    requires |pat| > 0 && c !in s && c !in rep
    ensures c !in ReplaceAll(s, pat, rep)
    decreases |s|
  {
    if |s| >= |pat| {
      if s[..|pat|] == pat {
        ReplaceAllExcludes(s[|pat|..], pat, rep, c);
      } else {
        ReplaceAllExcludes(s[1..], pat, rep, c);
      }
    }
  }

  /** Appending a character that cannot be part of the pattern commutes
      with the replacement. */
  lemma {:induction false} ReplaceAllSnoc(s: string, pat: string, rep: string, c: char)
    requires |pat| > 0 && c !in pat
    ensures ReplaceAll(s + [c], pat, rep) == ReplaceAll(s, pat, rep) + [c]
    decreases |s|
  {
    var t := s + [c];
    if |t| < |pat| {
    } else if t[..|pat|] == pat {
      assert |pat| < |t| by {
        assert t[|s|] == c;
      }
      assert s[..|pat|] == pat;
      assert t[|pat|..] == s[|pat|..] + [c];
      ReplaceAllSnoc(s[|pat|..], pat, rep, c);
    } else if s == [] {
    } else if |s| < |pat| {
      assert |s[1..] + [c]| < |pat|;
      assert t[1..] == s[1..] + [c];
      assert s == [s[0]] + s[1..];
    } else {
      assert s[..|pat|] == t[..|pat|];
      assert t[1..] == s[1..] + [c];
      ReplaceAllSnoc(s[1..], pat, rep, c);
    }
  }

  /** Replacing a single character `p` in a text that holds it only at its
      very end replaces that last character and nothing else. */
  lemma {:induction false} ReplaceLastChar(s: string, p: char, rep: string)
    requires p !in s
    ensures ReplaceAll(s + [p], [p], rep) == s + rep
    decreases |s|
  {
    if s != [] {
      var t := s + [p];
      assert t[..1] == [s[0]];
      assert t[1..] == s[1..] + [p];
      ReplaceLastChar(s[1..], p, rep);
      assert s == [s[0]] + s[1..];
    }
  }
}
