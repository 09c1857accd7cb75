/** The printed form of a bill of lading number: office code, "7", and the sequence number in at least six
    digits. */
module GblNumbers {
  function Digit(d: nat): char
    requires d < 10
  {
    '0' + d as char
  }

  predicate IsDigit(c: char) {
    '0' <= c <= '9'
  }

  function DigitValue(c: char): nat
    requires IsDigit(c)
  {
    (c - '0') as nat
  }

  predicate AllDigits(s: string) {
    forall i :: 0 <= i < |s| ==> IsDigit(s[i])
  }

  function Digits(n: nat): (s: string)
    ensures |s| > 0 && AllDigits(s)
  {
    if n < 10 then [Digit(n)] else Digits(n / 10) + [Digit(n % 10)]
  }

  function Zeros(n: nat): (s: string)
    ensures |s| == n && forall i :: 0 <= i < n ==> s[i] == '0'
  {
    seq(n, _ => '0')
  }

  const WIDTH: nat := 6

  /** n in decimal, with leading zeros up to six digits. */
  function Padded(n: nat): (s: string)
    ensures |s| >= WIDTH && AllDigits(s)
  {
    var s := Digits(n);
    if |s| >= WIDTH then s else Zeros(WIDTH - |s|) + s
  }

  function Format(gbloc: string, n: nat): string {
    gbloc + "7" + Padded(n)
  }

  function Value(s: string): nat
    requires AllDigits(s)
  {
    if s == [] then 0 else 10 * Value(s[..|s| - 1]) + DigitValue(s[|s| - 1])
  }

  lemma {:induction false} ValueOfZeros(k: nat, s: string)
    requires AllDigits(s)
    ensures Value(Zeros(k) + s) == Value(s)
  {
    if s == [] {
      if k > 0 {
        assert (Zeros(k) + s)[..k - 1] == Zeros(k - 1) + [];
        ValueOfZeros(k - 1, []);
      }
    } else {
      assert (Zeros(k) + s)[..k + |s| - 1] == Zeros(k) + s[..|s| - 1];
      ValueOfZeros(k, s[..|s| - 1]);
    }
  }

  lemma {:induction false} ValueOfDigits(n: nat)
    ensures Value(Digits(n)) == n
    ensures |Digits(n)| > 1 ==> Digits(n)[0] != '0'
  {
    if n >= 10 {
      ValueOfDigits(n / 10);
      assert Digits(n)[..|Digits(n)| - 1] == Digits(n / 10);
    } else {
      assert Digits(n)[..0] == [];
    }
  }

  lemma PaddedFacts(n: nat)
    ensures Value(Padded(n)) == n
    ensures |Padded(n)| > WIDTH ==> Padded(n)[0] != '0'
  {
    ValueOfDigits(n);
    if |Digits(n)| < WIDTH {
      ValueOfZeros(WIDTH - |Digits(n)|, Digits(n));
    }
  }

  lemma DigitsStep(n: nat, c: char)
    requires n > 0 && IsDigit(c)
    ensures Digits(10 * n + DigitValue(c)) == Digits(n) + [c]
  {
    var m := 10 * n + DigitValue(c);
    assert m / 10 == n && m % 10 == DigitValue(c);
  }

  lemma {:induction false} DigitsOfValue(s: string)
    requires s != [] && AllDigits(s) && s[0] != '0'
    ensures Value(s) > 0 && Digits(Value(s)) == s
  {
    if |s| > 1 {
      var init := s[..|s| - 1];
      DigitsOfValue(init);
      DigitsStep(Value(init), s[|s| - 1]);
      assert s == init + [s[|s| - 1]];
    } else {
      assert s[..0] == [];
    }
  }

  function Pow10(k: nat): (p: nat)
    ensures p > 0
  {
    if k == 0 then 1 else 10 * Pow10(k - 1)
  }

  lemma {:induction false} Pow10Grows(j: nat, k: nat)
    requires j <= k
    ensures Pow10(j) <= Pow10(k)
  {
    if j < k {
      Pow10Grows(j, k - 1);
    }
  }

  lemma ValueStep(s: string, c: char)
    requires AllDigits(s) && IsDigit(c)
    ensures AllDigits(s + [c]) && Value(s + [c]) == 10 * Value(s) + DigitValue(c)
  {
    assert (s + [c])[..|s|] == s;
  }

  lemma Regroup(v: nat, p: nat, w: nat)
    ensures 10 * (v * p + w) == v * (10 * p) + 10 * w
  {
  }

  lemma {:induction false} ValueOfJoin(a: string, b: string)
    requires AllDigits(a) && AllDigits(b)
    ensures AllDigits(a + b) && Value(a + b) == Value(a) * Pow10(|b|) + Value(b)
  {
    if b == "" {
      assert a + b == a;
    } else {
      var rest, c := b[..|b| - 1], b[|b| - 1];
      ValueOfJoin(a, rest);
      assert a + b == a + rest + [c] && b == rest + [c];
      ValueStep(a + rest, c);
      ValueStep(rest, c);
      hide Value;
      Regroup(Value(a), Pow10(|rest|), Value(rest));
    }
  }

  /** The largest value of the counter's column. */
  const MAX_SEQUENCE: nat := 0x7fff_ffff

  /** The smallest sequence number whose printed form begins with the digits e and goes on like number 1. */
  function Reach(e: string): nat
    requires AllDigits(e)
  {
    Value(e) * 10_000_000 + 7_000_001
  }

  /** Office code h continues g so that some sequence number of g within the counter's range prints like one
      of h. */
  predicate Extends(g: string, h: string) {
    && |g| < |h| && h[..|g|] == g && h[|g|] == '7'
    && var e := h[|g| + 1..];
    && AllDigits(e) && (e == "" || e[0] != '0') && Reach(e) <= MAX_SEQUENCE
  }

  predicate Clash(g: string, h: string) {
    Extends(g, h) || Extends(h, g)
  }

  predicate InRange(n: nat) {
    1 <= n <= MAX_SEQUENCE
  }

  lemma ValueOfSeven()
    ensures AllDigits("7") && Value("7") == 7
  {
    assert "7"[..0] == "";
  }

  lemma Pow10Step(k: nat)
    ensures Pow10(k + 1) == 10 * Pow10(k)
  {
  }

  lemma AtLeast(v: nat, q: nat, w: nat, total: nat)
    requires v == 7 && q >= 1_000_000 && w >= 1 && total == v * q + w
    ensures total >= 7_000_001
  {
  }

  lemma SevenFirst(p: string)
    requires AllDigits(p) && |p| >= WIDTH && Value(p) >= 1
    ensures AllDigits("7" + p) && Value("7" + p) >= 7_000_001 && Pow10(|p| + 1) >= 10_000_000
  {
    hide Pow10, Value;
    ValueOfSeven();
    ValueOfJoin("7", p);
    Pow10Grows(WIDTH, |p|);
    Pow10IsMillion();
    Pow10Step(|p|);
    AtLeast(Value("7"), Pow10(|p|), Value(p), Value("7" + p));
  }

  lemma Pow10IsMillion()
    ensures Pow10(WIDTH) == 1_000_000
  {
    assert Pow10(3) == 1000;
  }

  lemma ProductGrows(x: nat, y: nat, z: nat)
    requires y <= z
    ensures x * y <= x * z
  {
  }

  lemma JoinReaches(e: string, p: string)
    requires AllDigits(e) && AllDigits(p) && |p| >= WIDTH && Value(p) >= 1
    ensures AllDigits(e + ("7" + p)) && Reach(e) <= Value(e + ("7" + p))
    ensures |p| == WIDTH && Value(p) == 1 ==> Value(e + ("7" + p)) == Reach(e)
  {
    hide Value, Pow10;
    SevenFirst(p);
    ValueOfJoin(e, "7" + p);
    ProductGrows(Value(e), 10_000_000, Pow10(|p| + 1));
    if |p| == WIDTH && Value(p) == 1 {
      SevenThenOne(p);
    }
  }

  lemma SevenThenOne(p: string)
    requires AllDigits(p) && |p| == WIDTH && Value(p) == 1
    ensures AllDigits("7" + p) && Value("7" + p) == 7_000_001 && Pow10(|p| + 1) == 10_000_000
  {
    hide Pow10, Value;
    Pow10IsMillion();
    Pow10Step(|p|);
    ValueOfSeven();
    ValueOfJoin("7", p);
  }

  /** How the two printed forms overlap. */
  lemma Overlap(g: string, m: nat, h: string, n: nat) returns (e: string)
    requires Format(g, m) == Format(h, n) && |g| < |h|
    ensures h == g + "7" + e && Padded(m) == e + ("7" + Padded(n))
  {
    hide Padded;
    var s := Format(g, m);
    e := h[|g| + 1..];
    assert h == s[..|h|];
    assert s[..|g| + 1] == g + "7";
    assert Padded(m) == s[|g| + 1..];
    assert s[|h|..] == "7" + Padded(n);
    assert s[|g| + 1..] == s[|g| + 1..|h|] + s[|h|..];
    assert s[|g| + 1..|h|] == e;
  }

  lemma CollisionExtends(g: string, m: nat, h: string, n: nat)
    requires Format(g, m) == Format(h, n) && |g| < |h| && InRange(m) && InRange(n)
    ensures Extends(g, h)
  {
    PaddedFacts(m);
    PaddedFacts(n);
    hide Padded, Format, Value, Reach;
    var e := Overlap(g, m, h, n);
    assert h[|g| + 1..] == e && h[..|g|] == g && h[|g|] == '7';
    assert forall i :: 0 <= i < |e| ==> e[i] == Padded(m)[i];
    JoinReaches(e, Padded(n));
  }

  lemma PaddedOne()
    ensures |Padded(1)| == WIDTH && Value(Padded(1)) == 1
  {
    PaddedFacts(1);
    assert |Digits(1)| == 1;
  }

  lemma ExtensionCollides(g: string, h: string)
    requires Extends(g, h)
    ensures exists m: nat, n: nat :: InRange(m) && InRange(n) && Format(g, m) == Format(h, n)
  {
    hide Padded, Value, Digits, Format;
    var e := h[|g| + 1..];
    var tail := e + ("7" + Padded(1));
    PaddedOne();
    JoinReaches(e, Padded(1));
    assert h == g + "7" + e;
    PrintsAs(g, e, h, tail);
    assert InRange(Value(tail)) && InRange(1);
  }

  lemma PrintsAs(g: string, e: string, h: string, tail: string)
    requires h == g + "7" + e && tail == e + ("7" + Padded(1)) && AllDigits(tail) && (e == "" || e[0] != '0')
    ensures Format(g, Value(tail)) == Format(h, 1)
  {
    PaddedOne();
    hide Value;
    DigitsOfValue(tail);
    assert Padded(Value(tail)) == tail;
    hide Padded, Digits;
    assert g + "7" + (e + ("7" + Padded(1))) == g + "7" + e + "7" + Padded(1);
  }

  lemma EmptyReach()
    ensures AllDigits("") && Reach("") == 7_000_001
  {
  }

  lemma ExtendsBySeven(g: string)
    ensures Extends(g, g + "7")
  {
    hide Reach, Value;
    EmptyReach();
    var h := g + "7";
    assert h[..|g|] == g && h[|g|] == '7' && h[|g| + 1..] == "";
  }

  /** An office code that another one continues with just a 7. */
  lemma ShortestExtension(g: string)
    ensures Clash(g, g + "7") && Format(g, 7_000_001) == Format(g + "7", 1)
  {
    hide Padded, Value, Digits, Format, Pow10, Extends;
    ExtendsBySeven(g);
    var tail := "7" + Padded(1);
    PaddedOne();
    SevenThenOne(Padded(1));
    assert "" + tail == tail && g + "7" + "" == g + "7";
    PrintsAs(g, "", g + "7", tail);
  }

  lemma SameOffice(g: string, m: nat, n: nat)
    requires Format(g, m) == Format(g, n)
    ensures m == n
  {
    PaddedFacts(m);
    PaddedFacts(n);
    assert Padded(m) == Format(g, m)[|g| + 1..];
    assert Padded(n) == Format(g, n)[|g| + 1..];
  }

  /** Two numbers that the counters can give out print alike only if they are the same number of the same
      office, unless the office codes clash. */
  lemma FormatIsInjective(g: string, m: nat, h: string, n: nat)
    requires Format(g, m) == Format(h, n) && InRange(m) && InRange(n) && !Clash(g, h)
    ensures g == h && m == n
  {
    if |g| < |h| {
      CollisionExtends(g, m, h, n);
    } else if |h| < |g| {
      CollisionExtends(h, n, g, m);
    } else {
      assert g == Format(g, m)[..|g|];
      assert h == Format(h, n)[..|h|];
      SameOffice(g, m, n);
    }
  }

  /** Two office codes can ever produce the same printed number exactly when they clash; codes of equal
      length never do. */
  lemma CollisionIffClash(g: string, h: string)
    requires g != h
    ensures (exists m: nat, n: nat :: InRange(m) && InRange(n) && Format(g, m) == Format(h, n)) <==> Clash(g, h)
    ensures |g| == |h| ==> !Clash(g, h)
  {
    if Extends(g, h) {
      ExtensionCollides(g, h);
    } else if Extends(h, g) {
      ExtensionCollides(h, g);
    } else if m: nat, n: nat :| InRange(m) && InRange(n) && Format(g, m) == Format(h, n) {
      FormatIsInjective(g, m, h, n);
    }
  }
}
