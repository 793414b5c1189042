/**
 * The string formatting the models rely on: Python's `'%0Nd' % n` for
 * non-negative integers, reading such a field back, and `sep.join(parts)`
 * with its inverse `s.split(c)`.
 */
module Text {

  predicate IsDigit(c: char)
  {
    '0' <= c <= '9'
  }

  /** `\w` of a byte-string regular expression: ASCII letters, digits and `_`. */
  predicate IsWordChar(c: char)
  {
    ('a' <= c <= 'z') || ('A' <= c <= 'Z') || IsDigit(c) || c == '_'
  }

  predicate AllDigits(s: string)
  {
    forall i :: 0 <= i < |s| ==> IsDigit(s[i])
  }

  function DigitChar(d: nat): (c: char)
    requires d < 10
    ensures IsDigit(c)
  {
    ('0' as int + d) as char
  }

  function DigitValue(c: char): nat
    requires IsDigit(c)
  {
    c as int - '0' as int
  }

  /** `str(n)` for a non-negative integer: its decimal digits, no leading zero. */
  function Digits(n: nat): (r: string)
    ensures |r| >= 1 && AllDigits(r)
  {
    if n < 10 then [DigitChar(n)] else Digits(n / 10) + [DigitChar(n % 10)]
  }

  /** The value of a string of decimal digits (`int(s)`). */
  function ParseDecimal(s: string): nat
    requires AllDigits(s)
  {
    if s == [] then 0 else 10 * ParseDecimal(s[..|s| - 1]) + DigitValue(s[|s| - 1])
  }

  function Zeros(k: nat): (r: string)
    ensures |r| == k && AllDigits(r)
    ensures forall i :: 0 <= i < k ==> r[i] == '0'
  {
    if k == 0 then [] else Zeros(k - 1) + ['0']
  }

  /** `'%0<width>d' % n`: the digits of `n`, left-padded with zeros to `width`. */
  function ZeroPad(n: nat, width: nat): (r: string)
    ensures AllDigits(r)
  {
    var ds := Digits(n);
    if |ds| >= width then ds else Zeros(width - |ds|) + ds
  }

  function Pow10(k: nat): (r: nat)
    ensures r >= 1
  {
    if k == 0 then 1 else 10 * Pow10(k - 1)
  }

  lemma {:induction false} ParseDigits(n: nat)
    ensures ParseDecimal(Digits(n)) == n
  {
    if n >= 10 {
      ParseDigits(n / 10);
      var ds := Digits(n);
      assert ds[..|ds| - 1] == Digits(n / 10);
    }
  }

  lemma {:induction false} ParseLeadingZeros(k: nat, s: string)
    requires AllDigits(s)
    ensures ParseDecimal(Zeros(k) + s) == ParseDecimal(s)
  {
    if s == [] {
      assert Zeros(k) + s == Zeros(k);
      ParseZeros(k);
    } else {
      var init := s[..|s| - 1];
      ParseLeadingZeros(k, init);
      assert (Zeros(k) + s)[..|Zeros(k) + s| - 1] == Zeros(k) + init;
    }
  }

  lemma {:induction false} ParseZeros(k: nat)
    ensures ParseDecimal(Zeros(k)) == 0
  {
    if k > 0 {
      ParseZeros(k - 1);
      assert Zeros(k)[..k - 1] == Zeros(k - 1);
    }
  }

  /** A zero-padded field reads back as the number it was made from. */
  lemma ZeroPadRoundTrip(n: nat, width: nat)
    ensures ParseDecimal(ZeroPad(n, width)) == n
  {
    ParseDigits(n);
    var ds := Digits(n);
    if |ds| < width {
      ParseLeadingZeros(width - |ds|, ds);
    }
  }

  /** `n` has at most `k` digits exactly when it is below `10^k` (for `k >= 1`). */
  lemma {:induction false} DigitsLength(n: nat, k: nat)
    requires k >= 1
    ensures |Digits(n)| <= k <==> n < Pow10(k)
  {
    if n >= 10 {
      if k == 1 {
        assert |Digits(n)| == |Digits(n / 10)| + 1;
      } else {
        DigitsLength(n / 10, k - 1);
      }
    }
  }

  /** The padded field is exactly `width` long when `n` fits, and longer otherwise. */
  lemma ZeroPadLength(n: nat, width: nat)
    requires width >= 1
    ensures n < Pow10(width) ==> |ZeroPad(n, width)| == width
    ensures n >= Pow10(width) ==> |ZeroPad(n, width)| > width
  {
    DigitsLength(n, width);
  }

  /** `sep.join(parts)`. */
  function Join(sep: string, parts: seq<string>): string
  {
    if |parts| == 0 then ""
    else if |parts| == 1 then parts[0]
    else parts[0] + sep + Join(sep, parts[1..])
  }

  /** The number of times `c` occurs in `s`. */
  function CountChar(s: string, c: char): nat
  {
    if s == [] then 0 else (if s[0] == c then 1 else 0) + CountChar(s[1..], c)
  }

  function SumCounts(parts: seq<string>, c: char): nat
  {
    if parts == [] then 0 else CountChar(parts[0], c) + SumCounts(parts[1..], c)
  }

  lemma {:induction false} CountCharAppend(a: string, b: string, c: char)
    ensures CountChar(a + b, c) == CountChar(a, c) + CountChar(b, c)
  {
    if a != [] {
      CountCharAppend(a[1..], b, c);
      assert (a + b)[1..] == a[1..] + b;
    } else {
      assert a + b == b;
    }
  }

  /**
   * Joining `k >= 1` parts with `", "` adds exactly `k - 1` commas to those
   * the parts already hold; no parts give the empty string.
   */
  lemma {:induction false} JoinCommas(parts: seq<string>)
    ensures parts == [] ==> Join(", ", parts) == ""
    ensures parts != [] ==> CountChar(Join(", ", parts), ',') == SumCounts(parts, ',') + |parts| - 1
  {
    if |parts| == 1 {
      assert parts[1..] == [];
    } else if |parts| > 1 {
      JoinCommas(parts[1..]);
      CountCharAppend(parts[0], ", ", ',');
      CountCharAppend(parts[0] + ", ", Join(", ", parts[1..]), ',');
    }
  }

  /** Each part with one space put in front of it. */
  function Spaced(u: seq<string>): (r: seq<string>)
    ensures |r| == |u| && forall i :: 0 <= i < |u| ==> r[i] == " " + u[i]
  {
    if u == [] then [] else [" " + u[0]] + Spaced(u[1..])
  }

  /** A string put in front of the first part comes out in front of the join. */
  lemma JoinPrefixHead(sep: string, pre: string, x: string, rest: seq<string>)
    ensures Join(sep, [pre + x] + rest) == pre + Join(sep, [x] + rest)
  {
    if rest != [] {
      assert ([pre + x] + rest)[1..] == rest;
      assert ([x] + rest)[1..] == rest;
    }
  }

  /**
   * Joining on `", "` is joining on `","` the same parts with a space put in
   * front of every part but the first.
   */
  lemma {:induction false} JoinSpaced(t: seq<string>)
    requires |t| >= 1
    ensures Join(", ", t) == Join(",", [t[0]] + Spaced(t[1..]))
  {
    if |t| == 1 {
      assert [t[0]] + Spaced(t[1..]) == [t[0]];
    } else {
      JoinSpaced(t[1..]);
      assert t[1..][1..] == t[2..];
      var rest := Spaced(t[2..]);
      assert Spaced(t[1..]) == [" " + t[1]] + rest;
      JoinPrefixHead(",", " ", t[1], rest);
      assert ([t[0]] + Spaced(t[1..]))[1..] == Spaced(t[1..]);
    }
  }

  /** The first position of `c` in `s`. */
  function IndexOf(s: string, c: char): (i: nat)
    requires c in s
    ensures i < |s| && s[i] == c && c !in s[..i]
  {
    if s[0] == c then 0
    else
      assert c in s[1..] by {
        var k :| 0 <= k < |s| && s[k] == c;
        assert k != 0 && s[1..][k - 1] == c;
      }
      var j := IndexOf(s[1..], c);
      assert s[..j + 1] == [s[0]] + s[1..][..j];
      1 + j
  }

  /** `s.split(c)`: the pieces between the occurrences of `c`. */
  function SplitOn(s: string, c: char): (r: seq<string>)
    ensures |r| >= 1
    decreases |s|
  {
    if c !in s then [s]
    else
      var i := IndexOf(s, c);
      [s[..i]] + SplitOn(s[i + 1..], c)
  }

  lemma IndexOfAfterPrefix(p: string, c: char, t: string)
    requires c !in p
    ensures c in p + [c] + t && IndexOf(p + [c] + t, c) == |p|
  {
    var s := p + [c] + t;
    assert s[|p|] == c;
  }

  /** Splitting what was joined on a character none of the parts holds gives the parts back. */
  lemma {:induction false} SplitJoin(parts: seq<string>, c: char)
    requires |parts| >= 1
    requires forall i :: 0 <= i < |parts| ==> c !in parts[i]
    ensures SplitOn(Join([c], parts), c) == parts
  {
    if |parts| > 1 {
      var rest := Join([c], parts[1..]);
      IndexOfAfterPrefix(parts[0], c, rest);
      var s := parts[0] + [c] + rest;
      assert Join([c], parts) == s;
      assert s[..|parts[0]|] == parts[0];
      assert s[|parts[0]| + 1..] == rest;
      assert SplitOn(s, c) == [parts[0]] + SplitOn(rest, c);
      SplitJoin(parts[1..], c);
      assert parts == [parts[0]] + parts[1..];
    }
  }
}
