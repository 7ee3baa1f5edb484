/** String helpers shared by the query builders: decimal rendering of
    placeholder numbers and `join` with a separator. */
module Text {
  function DigitChar(d: nat): (c: char)
    requires d < 10
    ensures '0' <= c <= '9' && c as int - '0' as int == d
  {
    "0123456789"[d]
  }

  /** The decimal digits of `n`, as `format!("{}", n)` writes them. */
  function NatToString(n: nat): (s: string)
    ensures |s| >= 1
    ensures forall i :: 0 <= i < |s| ==> '0' <= s[i] <= '9'
    decreases n
  {
    if n < 10 then [DigitChar(n)] else NatToString(n / 10) + [DigitChar(n % 10)]
  }

  /** The number a string of decimal digits denotes. */
  function DigitsValue(s: string): nat
    requires forall i :: 0 <= i < |s| ==> '0' <= s[i] <= '9'
  {
    if s == [] then 0 else 10 * DigitsValue(s[..|s| - 1]) + (s[|s| - 1] as int - '0' as int)
  }

  /** Rendering a number and reading it back gives the number. */
  lemma {:induction false} NatToStringRoundTrip(n: nat)
    ensures DigitsValue(NatToString(n)) == n
    decreases n
  {
    if n >= 10 {
      NatToStringRoundTrip(n / 10);
      var s := NatToString(n);
      assert s[..|s| - 1] == NatToString(n / 10);
    }
  }

  /** Different numbers render differently, so numbered placeholders never collide. */
  lemma NatToStringInjective(m: nat, n: nat)
    requires NatToString(m) == NatToString(n)
    ensures m == n
  {
    NatToStringRoundTrip(m);
    NatToStringRoundTrip(n);
  }

  /** A known prefix of a string can be cut into its last part and what comes
      before it; the query builders state their layouts piece by piece this way. */
  lemma Cut(s: string, pre: string, part: string)
    requires |pre| + |part| <= |s| && s[..|pre| + |part|] == pre + part
    ensures s[..|pre|] == pre && s[|pre|..|pre| + |part|] == part
  {
    assert s[..|pre|] == (pre + part)[..|pre|];
    assert s[|pre|..|pre| + |part|] == (pre + part)[|pre|..];
  }

  /** The six parts of a concatenation can be cut back out of it. */
  lemma Cut6(p1: string, p2: string, p3: string, p4: string, p5: string, p6: string)
    ensures var s := p1 + p2 + p3 + p4 + p5 + p6;
      var a := |p1| + |p2|;
      var b := a + |p3|;
      var c := b + |p4|;
      var d := c + |p5|;
      && |s| == d + |p6|
      && s[..|p1|] == p1
      && s[|p1|..a] == p2
      && s[a..b] == p3
      && s[b..c] == p4
      && s[c..d] == p5
      && s[d..] == p6
  {
    var s := p1 + p2 + p3 + p4 + p5 + p6;
    Cut(s, p1 + p2 + p3 + p4 + p5, p6);
    Cut(s, p1 + p2 + p3 + p4, p5);
    Cut(s, p1 + p2 + p3, p4);
    Cut(s, p1 + p2, p3);
    Cut(s, p1, p2);
  }

  /** `parts.join(sep)`. */
  function Join(sep: string, parts: seq<string>): (r: string)
    ensures parts == [] ==> r == ""
    ensures |parts| == 1 ==> r == parts[0]
  {
    if parts == [] then "" else if |parts| == 1 then parts[0]
    else Join(sep, parts[..|parts| - 1]) + sep + parts[|parts| - 1]
  }

  /** Joining parts whose last one is not empty gives a non-empty text. */
  lemma JoinNonEmpty(sep: string, parts: seq<string>)
    requires parts != [] && parts[|parts| - 1] != ""
    ensures Join(sep, parts) != ""
  {
    if |parts| > 1 {
      assert Join(sep, parts) == Join(sep, parts[..|parts| - 1]) + sep + parts[|parts| - 1];
    }
  }
}
