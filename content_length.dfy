/**
 * Reading a content-length header value the way Python's built-in int()
 * reads a str in base 10: surrounding whitespace is ignored, one optional
 * sign, then decimal digits where single underscores may separate digits.
 * Anything else raises ValueError, modelled as None.
 */
module ContentLength {
  import opened Wrappers

  predicate IsSpace(c: char) {
    c == ' ' || c == '\t' || c == '\n' || c == '\r' || c == '\U{0B}' || c == '\U{0C}'
  }

  predicate IsDigit(c: char) {
    '0' <= c <= '9'
  }

  predicate AllSpace(s: string) {
    forall i :: 0 <= i < |s| ==> IsSpace(s[i])
  }

  /** The number of whitespace characters `s` starts with. */
  function LeadingSpaces(s: string): (n: nat)
    ensures n <= |s|
  {
    if s != [] && IsSpace(s[0]) then 1 + LeadingSpaces(s[1..]) else 0
  }

  /** The number of whitespace characters `s` ends with. */
  function TrailingSpaces(s: string): (n: nat)
    ensures n <= |s|
  {
    if s != [] && IsSpace(s[|s| - 1]) then 1 + TrailingSpaces(s[..|s| - 1]) else 0
  }

  /** `s` without its leading and trailing whitespace. */
  function Strip(s: string): string {
    var t := s[LeadingSpaces(s)..];
    t[..|t| - TrailingSpaces(t)]
  }

  ghost predicate DigitsOrUnderscores(s: string) {
    forall i :: 0 <= i < |s| ==> IsDigit(s[i]) || s[i] == '_'
  }

  /**
   * What int() accepts after the sign: decimal digits in which an underscore
   * may stand only between two digits, so non-empty, starting and ending
   * with a digit, and without "__".
   */
  ghost predicate IsDigitRun(s: string) {
    && |s| > 0
    && IsDigit(s[0]) && IsDigit(s[|s| - 1])
    && DigitsOrUnderscores(s)
    && (forall i, j :: 0 <= i < |s| && 0 <= j < |s| && j == i + 1 ==> s[i] != '_' || s[j] != '_')
  }

  /** The number a run of decimal digits denotes, most significant first; underscores are skipped. */
  ghost function RunValue(s: string): nat
    requires DigitsOrUnderscores(s)
  {
    if s == [] then 0
    else if s[|s| - 1] == '_' then RunValue(s[..|s| - 1])
    else RunValue(s[..|s| - 1]) * 10 + (s[|s| - 1] as int - '0' as int)
  }

  /**
   * The unsigned value of a digit run, or None when `s` is not one; read
   * from the last digit backwards, stepping over one underscore at a time.
   */
  function ParseDigitRun(s: string): Option<nat> {
    if |s| == 0 || !IsDigit(s[|s| - 1]) then None
    else
      var d := s[|s| - 1] as int - '0' as int;
      if |s| == 1 then Some(d)
      else
        var init := s[..|s| - 1];
        var digits := if init[|init| - 1] == '_' then init[..|init| - 1] else init;
        if digits == [] then None
        else match ParseDigitRun(digits)
          case Some(v) => Some(v * 10 + d)
          case None => None
  }

  /** ParseDigitRun accepts exactly the digit runs, and yields the number each denotes. */
  lemma {:induction false} ParseDigitRunMeetsSpec(s: string)
    ensures ParseDigitRun(s).Some? <==> IsDigitRun(s)
    ensures IsDigitRun(s) ==> ParseDigitRun(s).value == RunValue(s)
  {
    if |s| >= 2 && IsDigit(s[|s| - 1]) {
      var n := |s|;
      var init := s[..n - 1];
      var digits := if init[n - 2] == '_' then init[..n - 2] else init;
      if digits != [] {
        ParseDigitRunMeetsSpec(digits);
        assert digits == s[..|digits|];
        if IsDigitRun(s) {
          assert DigitsOrUnderscores(digits);
          if init[n - 2] == '_' {
            assert s[n - 2] == '_';
            assert s[n - 3] != '_';
            assert RunValue(init) == RunValue(digits);
          }
          assert IsDigitRun(digits);
        }
        if IsDigitRun(digits) {
          assert IsDigitRun(s) by {
            forall i, j | 0 <= i < n && 0 <= j < n && j == i + 1
              ensures s[i] != '_' || s[j] != '_'
            {
              if j < |digits| {
                assert s[i] == digits[i] && s[j] == digits[j];
              }
            }
          }
          if init[n - 2] == '_' {
            assert init[..n - 2] == digits;
            assert RunValue(init) == RunValue(digits);
          }
        }
      } else {
        assert init[n - 2] == '_';
        assert !IsDigit(s[0]);
      }
    }
  }

  /** An optional sign followed by a digit run, with nothing around it. */
  function ParseSigned(t: string): (r: Option<int>)
    ensures r.Some? && r.value < 0 ==> |t| > 0 && t[0] == '-'
  {
    var signed := |t| > 0 && (t[0] == '-' || t[0] == '+');
    var digits := if signed then t[1..] else t;
    match ParseDigitRun(digits)
    case Some(n) => Some(if signed && t[0] == '-' then -(n as int) else n)
    case None => None
  }

  /**
   * ParseSigned accepts exactly a digit run with at most one leading sign,
   * and yields the run's value, negated after a '-'.
   */
  lemma {:induction false} ParseSignedMeetsSpec(t: string)
    ensures ParseSigned(t).Some?
        <==> IsDigitRun(t) || (|t| > 0 && (t[0] == '+' || t[0] == '-') && IsDigitRun(t[1..]))
    ensures IsDigitRun(t) ==> ParseSigned(t) == Some(RunValue(t))
    ensures |t| > 0 && t[0] == '+' && IsDigitRun(t[1..]) ==> ParseSigned(t) == Some(RunValue(t[1..]))
    ensures |t| > 0 && t[0] == '-' && IsDigitRun(t[1..]) ==> ParseSigned(t) == Some(-(RunValue(t[1..]) as int))
  {
    if |t| > 0 && (t[0] == '+' || t[0] == '-') {
      ParseDigitRunMeetsSpec(t[1..]);
    } else {
      ParseDigitRunMeetsSpec(t);
    }
  }

  /**
   * int() on a value with whitespace around it: the value is read as an
   * optional sign followed by a digit run, and nothing else is accepted.
   */
  lemma ParseIntOfSurrounded(pre: string, t: string, post: string)
    requires AllSpace(pre) && AllSpace(post)
    requires |t| > 0 && !IsSpace(t[0]) && !IsSpace(t[|t| - 1])
    ensures ParseInt(pre + t + post) == ParseSigned(t)
    ensures ParseInt(pre + t + post).Some?
        <==> IsDigitRun(t) || ((t[0] == '+' || t[0] == '-') && IsDigitRun(t[1..]))
  {
    StripSurrounded(pre, t, post);
    ParseSignedMeetsSpec(t);
  }

  /** Python's int(s) for a str `s`: Some(value), or None where int() raises ValueError. */
  function ParseInt(s: string): (r: Option<int>)
    ensures r.Some? && r.value < 0 ==> '-' in s
  {
    var r := ParseSigned(Strip(s));
    assert r.Some? && r.value < 0 ==> s[LeadingSpaces(s)] == '-';
    r
  }

  function DigitChar(d: nat): (c: char)
    requires d < 10
    ensures IsDigit(c) && c as int - '0' as int == d
  {
    ('0' as int + d) as char
  }

  /** Python's str(n) for an int: an optional minus sign, then decimal digits. */
  function Render(n: int): (s: string)
    ensures |s| > 0
  {
    if n < 0 then "-" + RenderNat(-n) else RenderNat(n)
  }

  function RenderNat(n: nat): (s: string)
    ensures |s| > 0 && forall i :: 0 <= i < |s| ==> IsDigit(s[i])
  {
    if n < 10 then [DigitChar(n)] else RenderNat(n / 10) + [DigitChar(n % 10)]
  }

  /** The digits of a number read back as the number. */
  lemma {:induction false} RenderNatReadsBack(n: nat)
    ensures ParseDigitRun(RenderNat(n)) == Some(n)
  {
    var s := RenderNat(n);
    if n >= 10 {
      RenderNatReadsBack(n / 10);
      var p := RenderNat(n / 10);
      assert s[..|s| - 1] == p;
      assert p[|p| - 1] != '_';
    }
  }

  lemma {:induction false} LeadingSpacesOf(pre: string, s: string)
    requires AllSpace(pre)
    requires s == [] || !IsSpace(s[0])
    ensures LeadingSpaces(pre + s) == |pre|
  {
    if pre != [] {
      assert (pre + s)[1..] == pre[1..] + s;
      LeadingSpacesOf(pre[1..], s);
    } else {
      assert pre + s == s;
    }
  }

  lemma {:induction false} TrailingSpacesOf(s: string, post: string)
    requires AllSpace(post)
    requires s == [] || !IsSpace(s[|s| - 1])
    ensures TrailingSpaces(s + post) == |post|
  {
    if post != [] {
      assert (s + post)[..|s + post| - 1] == s + post[..|post| - 1];
      TrailingSpacesOf(s, post[..|post| - 1]);
    } else {
      assert s + post == s;
    }
  }

  /** Whitespace around a value that neither starts nor ends with whitespace is stripped off exactly. */
  lemma StripSurrounded(pre: string, s: string, post: string)
    requires AllSpace(pre) && AllSpace(post)
    requires |s| > 0 && !IsSpace(s[0]) && !IsSpace(s[|s| - 1])
    ensures Strip(pre + s + post) == s
  {
    assert pre + s + post == pre + (s + post);
    LeadingSpacesOf(pre, s + post);
    assert (pre + s + post)[|pre|..] == s + post;
    TrailingSpacesOf(s, post);
  }

  /** int() ignores whitespace around the value. */
  lemma ParseIgnoresSurroundingSpace(pre: string, s: string, post: string)
    requires AllSpace(pre) && AllSpace(post)
    requires |s| > 0 && !IsSpace(s[0]) && !IsSpace(s[|s| - 1])
    ensures ParseInt(pre + s + post) == ParseInt(s)
  {
    StripSurrounded(pre, s, post);
    StripSurrounded([], s, []);
    assert [] + s + [] == s;
  }

  lemma {:induction false} ParseSignedRenderNat(m: nat)
    ensures ParseSigned(RenderNat(m)) == Some(m)
  {
    RenderNatReadsBack(m);
    var r := RenderNat(m);
    assert r[0] != '-' && r[0] != '+';
  }

  lemma {:induction false} StripDigitsEnds(s: string)
    requires |s| > 0 && !IsSpace(s[0]) && !IsSpace(s[|s| - 1])
    ensures Strip(s) == s
  {
    assert LeadingSpaces(s) == 0;
    assert s[0..] == s;
    assert TrailingSpaces(s) == 0;
  }

  lemma {:induction false} ParseSignedNegative(m: nat)
    requires m > 0
    ensures ParseSigned("-" + RenderNat(m)) == Some(-(m as int))
  {
    RenderNatReadsBack(m);
    var s := "-" + RenderNat(m);
    assert s[0] == '-' && s[1..] == RenderNat(m);
  }

  lemma ParseRenderNegative(m: nat)
    requires m > 0
    ensures ParseInt(Render(-(m as int))) == Some(-(m as int))
  {
    var r := RenderNat(m);
    var s := "-" + r;
    assert Render(-(m as int)) == s;
    assert s[|s| - 1] == r[|r| - 1];
    StripDigitsEnds(s);
    ParseSignedNegative(m);
  }

  /** int() reads back what str() writes, for every integer. */
  lemma {:induction false} ParseRenderRoundTrip(n: int)
    ensures ParseInt(Render(n)) == Some(n)
  {
    if n < 0 {
      var m: nat := -n;
      ParseRenderNegative(m);
      assert n == -(m as int);
    } else {
      var r := RenderNat(n);
      assert Render(n) == r;
      assert IsDigit(r[0]) && IsDigit(r[|r| - 1]);
      StripDigitsEnds(r);
      ParseSignedRenderNat(n);
    }
  }

  /** Single underscores between digits are accepted and ignored. */
  lemma ParseUnderscoreExample()
    ensures ParseInt("1_000") == Some(1000)
  {
    assert ParseDigitRun("1_000") == Some(1000) by {
      assert "1_000"[..4] == "1_00" && "1_00"[..3] == "1_0" && "1_0"[..2] == "1_";
      assert "1_"[..1] == "1";
    }
    assert ParseSigned("1_000") == Some(1000);
    StripDigitsEnds("1_000");
  }

  lemma {:induction false} LeadingSpacesBeforeNonSpace(s: string, c: char)
    requires !IsSpace(c)
    ensures LeadingSpaces(s + [c]) <= |s|
  {
    if s != [] {
      assert (s + [c])[1..] == s[1..] + [c];
      LeadingSpacesBeforeNonSpace(s[1..], c);
    }
  }

  /** A value that ends in anything but a digit or whitespace is rejected, as "12abc" is. */
  lemma ParseRejectsTrailingJunk(s: string, c: char)
    requires !IsDigit(c) && !IsSpace(c)
    ensures ParseInt(s + [c]) == None
  {
    var x := s + [c];
    LeadingSpacesBeforeNonSpace(s, c);
    var t := x[LeadingSpaces(x)..];
    assert t[|t| - 1] == c;
    assert TrailingSpaces(t) == 0;
    assert t[..|t|] == t;
    assert Strip(x) == t;
  }

  /** A header made of whitespace only, the empty one included, is rejected. */
  lemma ParseRejectsBlank(s: string)
    requires AllSpace(s)
    ensures ParseInt(s) == None
  {
    LeadingSpacesOf(s, []);
    assert s + [] == s;
    assert Strip(s) == [];
  }
}
