/**
 * The pieces of java.lang that the modelled code leans on, written out:
 * String.split with a one-character pattern, Integer.parseInt (radix 10)
 * and String.valueOf(int).
 */
module JavaText {
  import opened Wrappers

  /** The range of a Java int. */
  const IntMin: int := -0x8000_0000
  const IntMax: int := 0x7fff_ffff

  predicate IsJavaInt(n: int) { IntMin <= n <= IntMax }

  // ---------------------------------------------------------------------------
  // String.split(String regex) for a pattern that matches exactly one character c
  // ---------------------------------------------------------------------------

  /** Every segment of s between occurrences of c, empty segments included. */
  function SplitAll(s: string, c: char): (r: seq<string>)
    ensures |r| >= 1
    decreases |s|
  {
    if s == [] then [""]
    else
      var rest := SplitAll(s[1..], c);
      if s[0] == c then [""] + rest else [[s[0]] + rest[0]] + rest[1..]
  }

  /** The segments joined back together with c between neighbours. */
  function Join(parts: seq<string>, c: char): string
  {
    if |parts| == 0 then ""
    else if |parts| == 1 then parts[0]
    else parts[0] + [c] + Join(parts[1..], c)
  }

  /** Drops empty strings from the end, as split with limit 0 does. */
  function StripTrailingEmpty(parts: seq<string>): (r: seq<string>)
    ensures |r| <= |parts| && r == parts[..|r|]
    ensures |r| > 0 ==> r[|r| - 1] != ""
    ensures forall i :: |r| <= i < |parts| ==> parts[i] == ""
  {
    if |parts| > 0 && parts[|parts| - 1] == "" then StripTrailingEmpty(parts[..|parts| - 1])
    else parts
  }

  /**
   * s.split(c): when c does not occur the result is the whole string (even
   * the empty one); otherwise the segments without the trailing empty ones.
   */
  function Split(s: string, c: char): (r: seq<string>)
  {
    if c !in s then [s] else StripTrailingEmpty(SplitAll(s, c))
  }

  /** The text before the first occurrence of c (all of s if c does not occur). */
  function BeforeFirst(s: string, c: char): (r: string)
    ensures c !in r
    ensures r <= s
    ensures c in s ==> |r| < |s| && s[|r|] == c
  {
    if s == [] || s[0] == c then [] else [s[0]] + BeforeFirst(s[1..], c)
  }

  predicate AllChar(s: string, c: char)
  {
    forall i :: 0 <= i < |s| ==> s[i] == c
  }

  /** No segment of SplitAll contains the separator, and joining them gives s back. */
  lemma {:induction false} SplitAllJoin(s: string, c: char)
    ensures Join(SplitAll(s, c), c) == s
    ensures forall i :: 0 <= i < |SplitAll(s, c)| ==> c !in SplitAll(s, c)[i]
    decreases |s|
  {
    if s != [] {
      var rest := SplitAll(s[1..], c);
      SplitAllJoin(s[1..], c);
      if s[0] == c {
        assert SplitAll(s, c) == [""] + rest;
        assert Join(SplitAll(s, c), c) == "" + [c] + Join(rest, c);
      } else {
        var r := SplitAll(s, c);
        assert r == [[s[0]] + rest[0]] + rest[1..];
        if |rest| == 1 {
          assert Join(r, c) == [s[0]] + rest[0];
        } else {
          assert Join(rest, c) == rest[0] + [c] + Join(rest[1..], c);
          assert r[1..] == rest[1..];
          assert Join(r, c) == [s[0]] + rest[0] + [c] + Join(rest[1..], c);
        }
        forall i | 0 <= i < |r| ensures c !in r[i] {
          if i > 0 { assert r[i] == rest[i]; }
        }
      }
    }
  }

  /** Splitting at c undoes joining with c, when no part contains c. */
  lemma {:induction false} JoinSplitAll(parts: seq<string>, c: char)
    requires |parts| >= 1
    requires forall i :: 0 <= i < |parts| ==> c !in parts[i]
    ensures SplitAll(Join(parts, c), c) == parts
    decreases |parts|
  {
    if |parts| == 1 {
      SplitAllNoSeparator(parts[0], c);
    } else {
      JoinSplitAll(parts[1..], c);
      SplitAllAfterSegment(parts[0], Join(parts[1..], c), c);
      assert [parts[0]] + parts[1..] == parts;
    }
  }

  lemma {:induction false} SplitAllNoSeparator(s: string, c: char)
    requires c !in s
    ensures SplitAll(s, c) == [s]
    decreases |s|
  {
    if s != [] {
      SplitAllNoSeparator(s[1..], c);
      assert [s[0]] + s[1..] == s;
    }
  }

  /** A leading segment free of c splits off as the first part. */
  lemma {:induction false} SplitAllAfterSegment(a: string, b: string, c: char)
    requires c !in a
    ensures SplitAll(a + [c] + b, c) == [a] + SplitAll(b, c)
    decreases |a|
  {
    if a == [] {
      assert a + [c] + b == [c] + b;
      assert ([c] + b)[1..] == b;
    } else {
      SplitAllAfterSegment(a[1..], b, c);
      assert (a + [c] + b)[1..] == a[1..] + [c] + b;
      assert [a[0]] + a[1..] == a;
    }
  }

  /** The first segment is the text before the first c. */
  lemma {:induction false} SplitAllFirst(s: string, c: char)
    ensures SplitAll(s, c)[0] == BeforeFirst(s, c)
    decreases |s|
  {
    if s != [] && s[0] != c {
      SplitAllFirst(s[1..], c);
    }
  }

  /** Every segment of split is free of c. */
  lemma SplitSegmentsFree(s: string, c: char)
    ensures forall i :: 0 <= i < |Split(s, c)| ==> c !in Split(s, c)[i]
  {
    if c in s {
      SplitAllJoin(s, c);
    }
  }

  /** Split has no element at all exactly when s is non-empty and made only of c. */
  lemma {:induction false} SplitEmptyIff(s: string, c: char)
    ensures Split(s, c) == [] <==> (s != "" && AllChar(s, c))
  {
    if c in s {
      AllEmptyIff(s, c);
      StripEmptyIff(SplitAll(s, c));
      assert s != "";
      assert Split(s, c) == StripTrailingEmpty(SplitAll(s, c));
    } else if s != "" {
      assert s[0] != c;
    }
  }

  /** StripTrailingEmpty leaves nothing exactly when every part is empty. */
  lemma {:induction false} StripEmptyIff(parts: seq<string>)
    ensures StripTrailingEmpty(parts) == [] <==> forall i :: 0 <= i < |parts| ==> parts[i] == ""
    decreases |parts|
  {
    if |parts| > 0 && parts[|parts| - 1] == "" {
      var init := parts[..|parts| - 1];
      StripEmptyIff(init);
      assert forall i :: 0 <= i < |init| ==> init[i] == parts[i];
    }
  }

  /** All segments of s are empty exactly when s consists of c alone. */
  lemma {:induction false} AllEmptyIff(s: string, c: char)
    ensures (forall i :: 0 <= i < |SplitAll(s, c)| ==> SplitAll(s, c)[i] == "") <==> AllChar(s, c)
    decreases |s|
  {
    if s != [] {
      var rest := SplitAll(s[1..], c);
      var all := SplitAll(s, c);
      AllEmptyIff(s[1..], c);
      if s[0] == c {
        assert all == [""] + rest;
        var restEmpty := forall i :: 0 <= i < |rest| ==> rest[i] == "";
        var allEmpty := forall i :: 0 <= i < |all| ==> all[i] == "";
        if restEmpty {
          forall i | 0 <= i < |all| ensures all[i] == "" {
            if i > 0 { assert all[i] == rest[i - 1]; }
          }
        } else {
          var j :| 0 <= j < |rest| && rest[j] != "";
          assert all[j + 1] == rest[j];
        }
        assert allEmpty == restEmpty;
        if AllChar(s[1..], c) {
          forall i | 0 <= i < |s| ensures s[i] == c {
            if i > 0 { assert s[i] == s[1..][i - 1]; }
          }
          assert AllChar(s, c);
        } else {
          var j :| 0 <= j < |s[1..]| && s[1..][j] != c;
          assert s[j + 1] == s[1..][j];
          assert !AllChar(s, c);
        }
      } else {
        assert all[0] != "";
      }
    }
  }

  /** A string free of c followed by one or more c's splits to just that string (when it is not empty). */
  lemma {:induction false} SplitTrailingSeparators(a: string, k: nat, c: char)
    requires c !in a && a != "" && k >= 1
    ensures Split(a + seq(k, _ => c), c) == [a]
  {
    var t := seq(k, _ => c);
    assert t == [c] + t[1..];
    assert a + t == a + [c] + t[1..];
    SplitAllAfterSegment(a, t[1..], c);
    AllEmptyIff(t[1..], c);
    assert (a + t)[|a|] == c;
    var all := SplitAll(a + t, c);
    assert all == [a] + SplitAll(t[1..], c);
    StripAfterNonEmpty(a, SplitAll(t[1..], c));
  }

  lemma {:induction false} StripAfterNonEmpty(a: string, tail: seq<string>)
    requires a != ""
    requires forall i :: 0 <= i < |tail| ==> tail[i] == ""
    ensures StripTrailingEmpty([a] + tail) == [a]
    decreases |tail|
  {
    if |tail| > 0 {
      assert ([a] + tail)[..|tail|] == [a] + tail[..|tail| - 1];
      StripAfterNonEmpty(a, tail[..|tail| - 1]);
    }
  }

  /** When split yields anything, its first element is the text before the first c. */
  lemma SplitFirst(s: string, c: char)
    requires |Split(s, c)| >= 1
    ensures Split(s, c)[0] == BeforeFirst(s, c)
  {
    if c in s {
      SplitAllFirst(s, c);
    } else {
      SplitAllNoSeparator(s, c);
      SplitAllFirst(s, c);
    }
  }

  // ---------------------------------------------------------------------------
  // Integer.parseInt(s) and String.valueOf(n), radix 10
  // ---------------------------------------------------------------------------

  predicate IsDigit(ch: char) { '0' <= ch <= '9' }

  predicate AllDigits(s: string) { forall i :: 0 <= i < |s| ==> IsDigit(s[i]) }

  function DigitValue(ch: char): nat requires IsDigit(ch) { (ch - '0') as nat }

  function DigitChar(d: nat): (ch: char)
    requires d < 10
    ensures IsDigit(ch) && DigitValue(ch) == d
  {
    ('0' as int + d) as char
  }

  /** The value of a string of decimal digits, most significant first. */
  function DigitsValue(ds: string): nat
    requires AllDigits(ds)
  {
    if ds == [] then 0 else DigitsValue(ds[..|ds| - 1]) * 10 + DigitValue(ds[|ds| - 1])
  }

  /**
   * Integer.parseInt(s): an optional sign and then one or more decimal digits
   * whose value fits a Java int; anything else is a NumberFormatException (None).
   */
  function ParseInt(s: string): (r: Option<int>)
    ensures r.Some? ==> IsJavaInt(r.value)
    ensures r.Some? ==> s != "" && (var ds := if s[0] == '-' || s[0] == '+' then s[1..] else s;
                                    ds != "" && AllDigits(ds))
  {
    if s == [] then None
    else
      var digits := if s[0] == '-' || s[0] == '+' then s[1..] else s;
      if digits == [] || !AllDigits(digits) then None
      else
        var v: int := if s[0] == '-' then -(DigitsValue(digits) as int) else DigitsValue(digits);
        if IsJavaInt(v) then Some(v) else None
  }

  /** The decimal digits of n, without leading zeros. */
  function NatToDigits(n: nat): (r: string)
    ensures r != [] && AllDigits(r)
  {
    if n < 10 then [DigitChar(n)] else NatToDigits(n / 10) + [DigitChar(n % 10)]
  }

  /** String.valueOf(n). */
  function IntToString(n: int): string
  {
    if n < 0 then "-" + NatToDigits(-n) else NatToDigits(n)
  }

  lemma {:induction false} DigitsValueOfNatToDigits(n: nat)
    ensures DigitsValue(NatToDigits(n)) == n
  {
    if n >= 10 {
      DigitsValueOfNatToDigits(n / 10);
      var ds := NatToDigits(n);
      assert ds[..|ds| - 1] == NatToDigits(n / 10);
    }
  }

  /** Integer.parseInt(String.valueOf(n)) gives n back for every Java int. */
  lemma ParseIntOfIntToString(n: int)
    requires IsJavaInt(n)
    ensures ParseInt(IntToString(n)) == Some(n)
  {
    var m: nat := if n < 0 then -n else n;
    DigitsValueOfNatToDigits(m);
    var ds := NatToDigits(m);
    assert IsDigit(ds[0]);
    if n < 0 {
      assert IntToString(n)[1..] == ds;
    }
  }

  /** Distinct Java ints print differently, so String.valueOf is injective on them. */
  lemma IntToStringInjective(a: int, b: int)
    requires IsJavaInt(a) && IsJavaInt(b)
    requires IntToString(a) == IntToString(b)
    ensures a == b
  {
    ParseIntOfIntToString(a);
    ParseIntOfIntToString(b);
  }
}
