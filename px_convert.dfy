/**
 * `convertPxStringToNumber` (src/convertPxToNumber.js): `content.replace(/(\d+)px/g, …)`
 * replaces every run of digits written directly before "px" by the number it denotes
 * times UPSCALE_FACTOR, and drops the "px".
 *
 * The regular expression is modelled as a left-to-right scanner. At a digit the
 * greedy `\d+` takes the whole run; backtracking cannot help, because a shorter run
 * is followed by another digit, not by 'p'; a match attempt from inside the run
 * ends at the same place and fails the same way. So a run is either replaced whole
 * or copied whole.
 */
module PxConvert {

  const UPSCALE_FACTOR: nat := 1

  predicate IsDigit(c: char)
  {
    '0' <= c <= '9'
  }

  predicate AllDigits(s: string)
  {
    forall i :: 0 <= i < |s| ==> IsDigit(s[i])
  }

  /** The length of the run of digits that `s` starts with. */
  function DigitRun(s: string): (n: nat)
    ensures n <= |s|
    ensures AllDigits(s[..n])
    ensures n < |s| ==> !IsDigit(s[n])
  {
    if |s| > 0 && IsDigit(s[0]) then
      var k := DigitRun(s[1..]);
      assert s[..k + 1] == [s[0]] + s[1..][..k];
      k + 1
    else 0
  }

  /** The number a string of decimal digits denotes (what `p1 * 1` yields). */
  function DigitsValue(d: string): nat
    requires AllDigits(d)
  {
    if |d| == 0 then 0 else DigitsValue(d[..|d| - 1]) * 10 + (d[|d| - 1] as int - '0' as int)
  }

  function DigitChar(k: nat): (c: char)
    requires k < 10
    ensures IsDigit(c)
  {
    ('0' as int + k) as char
  }

  /** The decimal text JavaScript writes for a non-negative integer: no leading zeros. */
  function NatToString(n: nat): (s: string)
    ensures |s| >= 1 && AllDigits(s)
    ensures |s| > 1 ==> s[0] != '0'
  {
    if n < 10 then [DigitChar(n)] else NatToString(n / 10) + [DigitChar(n % 10)]
  }

  /** "p" then "x" at index `i` of `s`. */
  predicate PxAt(s: string, i: nat)
  {
    i + 2 <= |s| && s[i] == 'p' && s[i + 1] == 'x'
  }

  /** One step of the scan: how many characters it consumes and what it writes for them. */
  datatype Token = Token(len: nat, out: string)

  /**
   * The token at the start of a non-empty `s`: a digit run followed by "px" becomes
   * its value, a digit run without "px" is copied whole, any other character is copied.
   */
  function Next(s: string): (t: Token)
    requires |s| > 0
    ensures 0 < t.len <= |s|
  {
    var k := DigitRun(s);
    if k > 0 && PxAt(s, k) then Token(k + 2, NatToString(DigitsValue(s[..k]) * UPSCALE_FACTOR))
    else if k > 0 then Token(k, s[..k])
    else Token(1, [s[0]])
  }

  /** `convertPxStringToNumber(content)`. */
  function Convert(s: string): string
    decreases |s|
  {
    if |s| == 0 then ""
    else
      var t := Next(s);
      t.out + Convert(s[t.len..])
  }

  /** Some digit of `s` stands directly before "px". */
  predicate HasMatch(s: string)
  {
    exists i :: 0 <= i < |s| && IsDigit(s[i]) && PxAt(s, i + 1)
  }

  /** `u` may be followed by anything without a match straddling the join. */
  predicate EndsCleanly(u: string)
  {
    |u| == 0 || (!IsDigit(u[|u| - 1]) && u[|u| - 1] != 'p')
  }

  /** Reading the decimal text back gives the number: the two functions are inverse. */
  lemma {:induction false} DigitsValueOfNatToString(n: nat)
    ensures DigitsValue(NatToString(n)) == n
  {
    var s := NatToString(n);
    if n >= 10 {
      DigitsValueOfNatToString(n / 10);
      assert s[..|s| - 1] == NatToString(n / 10);
    }
  }

  function Pow10(k: nat): (p: nat)
    ensures p >= 1
  {
    if k == 0 then 1 else 10 * Pow10(k - 1)
  }

  lemma {:induction false} DigitsValueBound(d: string)
    requires AllDigits(d)
    ensures DigitsValue(d) < Pow10(|d|)
    decreases |d|
  {
    if |d| > 0 {
      var init := d[..|d| - 1];
      DigitsValueBound(init);
      var c := d[|d| - 1] as int - '0' as int;
      assert DigitsValue(d) == DigitsValue(init) * 10 + c;
      assert DigitsValue(init) * 10 <= (Pow10(|init|) - 1) * 10;
    }
  }

  lemma {:induction false} NatToStringLength(n: nat, k: nat)
    requires k >= 1 && n < Pow10(k)
    ensures |NatToString(n)| <= k
    decreases k
  {
    if n >= 10 {
      assert Pow10(1) == 10;
      assert k >= 2;
      assert n / 10 < Pow10(k - 1);
      NatToStringLength(n / 10, k - 1);
    }
  }

  /** A run of digits never gets longer when rewritten: leading zeros drop out. */
  lemma DigitRunNotLonger(d: string)
    requires |d| >= 1 && AllDigits(d)
    ensures |NatToString(DigitsValue(d) * UPSCALE_FACTOR)| <= |d|
  {
    DigitsValueBound(d);
    NatToStringLength(DigitsValue(d), |d|);
  }

  /** No token writes more than it consumes. */
  lemma NextNotLonger(s: string)
    requires |s| > 0
    ensures |Next(s).out| <= Next(s).len
  {
    var k := DigitRun(s);
    if k > 0 && PxAt(s, k) {
      DigitRunNotLonger(s[..k]);
    }
  }

  /** The output is never longer than the input. */
  lemma {:induction false} ConvertNotLonger(s: string)
    ensures |Convert(s)| <= |s|
    decreases |s|
  {
    if |s| > 0 {
      var t := Next(s);
      NextNotLonger(s);
      ConvertNotLonger(s[t.len..]);
    }
  }

  /** Without a match the first token is copied, and the rest has no match either. */
  lemma NextWithoutMatch(s: string)
    requires |s| > 0 && !HasMatch(s)
    ensures Next(s).out == s[..Next(s).len] && !HasMatch(s[Next(s).len..])
  {
    var k := DigitRun(s);
    if k > 0 {
      assert IsDigit(s[..k][k - 1]);
      assert !PxAt(s, k);
    }
    var n := Next(s).len;
    forall i | 0 <= i < |s[n..]| && IsDigit(s[n..][i]) ensures !PxAt(s[n..], i + 1) {
      assert s[n..][i] == s[n + i];
      assert !PxAt(s, n + i + 1);
    }
  }

  /** A string with no digit directly before "px" comes back unchanged. */
  lemma {:induction false} ConvertWithoutMatch(s: string)
    requires !HasMatch(s)
    ensures Convert(s) == s
    decreases |s|
  {
    if |s| > 0 {
      var t := Next(s);
      NextWithoutMatch(s);
      ConvertWithoutMatch(s[t.len..]);
      ConvertStep(s);
      SplitAt(s, t.len);
    }
  }

  /** Unfolding Convert once. */
  lemma ConvertStep(s: string)
    requires |s| > 0
    ensures Convert(s) == Next(s).out + Convert(s[Next(s).len..])
  {
  }

  lemma SplitAt(s: string, n: nat)
    requires n <= |s|
    ensures s[..n] + s[n..] == s
  {
  }

  /** Text that ends cleanly is rewritten independently of what follows it. */
  lemma {:induction false} ConvertConcat(u: string, w: string)
    requires EndsCleanly(u)
    ensures Convert(u + w) == Convert(u) + Convert(w)
    decreases |u|, 1
  {
    if |u| > 0 {
      ConvertConcatStep(u, w);
    } else {
      ConvertConcatEmpty(u, w);
    }
  }

  lemma ConvertConcatEmpty(u: string, w: string)
    requires |u| == 0
    ensures Convert(u + w) == Convert(u) + Convert(w)
  {
    assert u + w == w;
  }

  /** ConvertConcat for a non-empty `u`: its first token, then the rest of `u`. */
  lemma {:induction false} ConvertConcatStep(u: string, w: string)
    requires |u| > 0 && EndsCleanly(u)
    ensures Convert(u + w) == Convert(u) + Convert(w)
    decreases |u|, 0
  {
    var t := Next(u);
    ConvertConcatHead(u, w);
    SuffixEndsCleanly(u, t.len);
    ConvertConcat(u[t.len..], w);
    ConvertStep(u);
    ConcatAssoc(t.out, Convert(u[t.len..]), Convert(w));
  }

  /** The first token of `u + w` is that of `u`, and the scan goes on in the rest of `u`. */
  lemma ConvertConcatHead(u: string, w: string)
    requires |u| > 0 && EndsCleanly(u)
    ensures Convert(u + w) == Next(u).out + Convert(u[Next(u).len..] + w)
  {
    ConvertStep(u + w);
    NextConcat(u, w);
    ConcatSuffix(u, w, Next(u).len);
  }

  lemma ConcatAssoc(a: string, b: string, c: string)
    ensures a + (b + c) == (a + b) + c
  {
  }

  /** A suffix of text that ends cleanly ends cleanly. */
  lemma SuffixEndsCleanly(u: string, n: nat)
    requires n <= |u| && EndsCleanly(u)
    ensures EndsCleanly(u[n..])
  {
    if n < |u| {
      assert u[n..][|u| - n - 1] == u[|u| - 1];
    }
  }

  /** A suffix of `u + w` that starts inside `u`. */
  lemma ConcatSuffix(u: string, w: string, i: nat)
    requires i <= |u|
    ensures (u + w)[i..] == u[i..] + w
  {
  }

  /** The first token of `u + w` is that of `u` when `u` ends cleanly. */
  lemma NextConcat(u: string, w: string)
    requires |u| > 0 && EndsCleanly(u)
    ensures Next(u + w) == Next(u)
  {
    var s := u + w;
    var k := DigitRun(u);
    DigitRunPrefix(u, w);
    assert s[..k] == u[..k];
    assert k < |u|;
    assert s[k] == u[k];
    if u[k] == 'p' {
      assert k + 1 < |u|;
      assert s[k + 1] == u[k + 1];
    }
    assert PxAt(s, k) == PxAt(u, k);
    assert s[0] == u[0];
  }

  /** The digit run of `u + w` is that of `u` when `u` does not end in a digit. */
  lemma DigitRunPrefix(u: string, w: string)
    requires |u| > 0 && !IsDigit(u[|u| - 1])
    ensures DigitRun(u + w) == DigitRun(u)
  {
    var k := DigitRun(u);
    var s := u + w;
    assert forall i :: 0 <= i < k ==> u[..k][i] == u[i];
    assert k < |u|;
    assert s[k] == u[k];
    assert s[..k] == u[..k];
    DigitRunUnique(s, k);
  }

  lemma {:induction false} DigitRunUnique(s: string, k: nat)
    requires k <= |s| && AllDigits(s[..k]) && (k < |s| ==> !IsDigit(s[k]))
    ensures DigitRun(s) == k
    decreases k
  {
    if k > 0 {
      assert IsDigit(s[..k][0]);
      assert s[1..][..k - 1] == s[..k][1..];
      DigitRunUnique(s[1..], k - 1);
    }
  }

  /** Digits directly followed by "px" at the start: they become their value. */
  lemma MatchAtStart(d: string, w: string)
    requires |d| >= 1 && AllDigits(d)
    ensures Convert(d + "px" + w) == NatToString(DigitsValue(d) * UPSCALE_FACTOR) + Convert(w)
  {
    var t := d + "px" + w;
    assert t[..|d|] == d;
    assert t[|d|] == 'p';
    DigitRunUnique(t, |d|);
    assert PxAt(t, |d|);
    assert t[|d| + 2..] == w;
    assert Next(t).len == |d| + 2;
  }

  /** One match between clean text: the digits become their value, the text around is kept. */
  lemma ConvertOneMatch(u: string, d: string, w: string)
    requires EndsCleanly(u) && !HasMatch(u)
    requires |d| >= 1 && AllDigits(d)
    ensures Convert(u + d + "px" + w) == u + NatToString(DigitsValue(d) * UPSCALE_FACTOR) + Convert(w)
  {
    var t := d + "px" + w;
    assert u + d + "px" + w == u + t;
    ConvertConcat(u, t);
    ConvertWithoutMatch(u);
    MatchAtStart(d, w);
  }

  /** "100px" becomes "100". */
  lemma HundredPx()
    ensures Convert("100px") == "100"
  {
    assert DigitsValue("100") == 100 by {
      assert "100"[..2] == "10";
      assert "10"[..1] == "1";
      assert "1"[..0] == "";
    }
    assert NatToString(100) == "100" by {
      assert NatToString(10) == "10";
    }
    assert "100" + "px" + "" == "100px";
    MatchAtStart("100", "");
  }

  /** Leading zeros vanish: "007px" becomes "7". */
  lemma LeadingZerosVanish()
    ensures Convert("007px") == "7"
  {
    assert DigitsValue("007") == 7 by {
      assert "007"[..2] == "00";
      assert "00"[..1] == "0";
      assert "0"[..0] == "";
    }
    assert "007" + "px" + "" == "007px";
    MatchAtStart("007", "");
  }
}
