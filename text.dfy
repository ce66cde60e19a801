/** Text rendering used by the report builders: Python's `str()` of an
    integer, `s[:n]` truncation and `"\n".join(lines)`. */
module Text {

  predicate IsDigit(c: char) {
    '0' <= c <= '9'
  }

  function Digit(d: nat): (c: char)
    requires d < 10
    ensures IsDigit(c) && c as int - '0' as int == d
  {
    ('0' as int + d) as char
  }

  /** Decimal digits of `n` without leading zeros, as `str(n)` prints them. */
  function NatStr(n: nat): (s: string)
    ensures |s| > 0
    ensures forall i :: 0 <= i < |s| ==> IsDigit(s[i])
    ensures |s| > 1 ==> s[0] != '0'
  {
    if n < 10 then [Digit(n)] else NatStr(n / 10) + [Digit(n % 10)]
  }

  /** `str(i)` for an integer: a minus sign in front of the digits of |i| when negative. */
  function IntStr(i: int): (s: string)
    ensures |s| > 0
    ensures (s[0] == '-') <==> i < 0
  {
    if i < 0 then "-" + NatStr(-i) else NatStr(i)
  }

  /** Text made of decimal digits only. */
  predicate IsNatText(s: string) {
    forall i :: 0 <= i < |s| ==> IsDigit(s[i])
  }

  /** Text of an optional minus sign followed by decimal digits. */
  predicate IsIntText(s: string) {
    && |s| > 0
    && (forall k :: 0 < k < |s| ==> IsDigit(s[k]))
    && (s[0] != '-' ==> IsDigit(s[0]))
  }

  /** Reads a string of decimal digits back as a number. */
  function ParseNat(s: string): (n: nat)
    requires IsNatText(s)
  {
    if s == [] then 0
    else
      assert IsDigit(s[|s| - 1]);
      ParseNat(s[..|s| - 1]) * 10 + (s[|s| - 1] as int - '0' as int)
  }

  function ParseInt(s: string): (i: int)
    requires IsIntText(s)
  {
    if s[0] == '-' then 0 - ParseNat(s[1..]) else ParseNat(s)
  }

  /** Rendering a number loses nothing: the digits read back as the number. */
  lemma {:induction false} NatStrRoundTrip(n: nat)
    ensures ParseNat(NatStr(n)) == n
  {
    if n >= 10 {
      var s := NatStr(n);
      assert s[..|s| - 1] == NatStr(n / 10);
      NatStrRoundTrip(n / 10);
    }
  }

  lemma IntStrRoundTrip(i: int)
    ensures ParseInt(IntStr(i)) == i
  {
    if i < 0 {
      assert IntStr(i)[1..] == NatStr(-i);
      NatStrRoundTrip(-i);
    } else {
      NatStrRoundTrip(i);
    }
  }

  /** Distinct integers render as distinct strings. */
  lemma IntStrInjective(a: int, b: int)
    requires IntStr(a) == IntStr(b)
    ensures a == b
  {
    IntStrRoundTrip(a);
    IntStrRoundTrip(b);
  }

  lemma AppendAssoc<T>(a: seq<T>, b: seq<T>, c: seq<T>)
    ensures a + b + c == a + (b + c)
  {
  }

  /** The four parts of a concatenation can be cut back out of it. */
  lemma SliceFour(a: string, b: string, c: string, d: string)
    ensures var t := a + b + c + d;
            && a <= t && |t| == |a| + |b| + |c| + |d|
            && t[|a|..|a| + |b|] == b
            && t[|a| + |b|..|a| + |b| + |c|] == c
            && t[|a| + |b| + |c|..] == d
  {
    var t := a + b + c + d;
    assert t == a + (b + (c + d));
    assert (b + (c + d))[..|b|] == b;
    assert (c + d)[..|c|] == c;
  }

  /** Python's `s[:n]`: the whole string when it is shorter than `n`. */
  function Truncate(s: string, n: nat): (r: string)
    ensures |r| == if |s| < n then |s| else n
    ensures r <= s
  {
    if |s| <= n then s else s[..n]
  }

  /** `sep.join(lines)`. */
  function Join(lines: seq<string>, sep: string): (r: string)
    ensures lines != [] ==> lines[0] <= r
  {
    if lines == [] then ""
    else if |lines| == 1 then lines[0]
    else Join(lines[..|lines| - 1], sep) + sep + lines[|lines| - 1]
  }

  /** Joining a list with one more line in front puts that line and a separator first. */
  lemma {:induction false} JoinCons(head: string, lines: seq<string>, sep: string)
    requires lines != []
    ensures Join([head] + lines, sep) == head + sep + Join(lines, sep)
  {
    if |lines| == 1 {
      assert [head] + lines == [head, lines[0]];
      assert ([head] + lines)[..1] == [head];
    } else {
      var init := lines[..|lines| - 1];
      assert ([head] + lines)[..|lines|] == [head] + init;
      JoinCons(head, init, sep);
    }
  }
}
