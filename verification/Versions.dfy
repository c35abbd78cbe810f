/** Version comparison: each component is padded to three characters and the concatenations are
    compared as strings.  The padding byte is a parameter, since the formatting verb pads strings with
    zeros or with blanks depending on the release of the language. */
module Versions {

  /******* The comparison *******/

  function TrimV(s: string): string {
    if s != "" && s[0] == 'v' then s[1..] else s
  }

  function Split(s: string, item: string): seq<string>
    decreases |s|
  {
    if s == "" then [item]
    else if s[0] == '.' then [item] + Split(s[1..], "")
    else Split(s[1..], item + [s[0]])
  }

  function CutDash(item: string): string {
    if item == "" || item[0] == '-' then "" else [item[0]] + CutDash(item[1..])
  }

  function Pad(item: string, pad: char): string
    decreases 3 - |item|
  {
    if |item| >= 3 then item else Pad([pad] + item, pad)
  }

  function Joined(items: seq<string>, pad: char): string {
    if items == [] then "" else Pad(CutDash(items[0]), pad) + Joined(items[1..], pad)
  }

  method VersionToStr(str: string, pad: char) returns (result: string)
    ensures result == Rendered(str, pad)
  {
    result := "";
    var arr := Split(TrimV(str), "");
    for i := 0 to |arr|
      invariant result + Joined(arr[i..], pad) == Joined(arr, pad)
    {
      assert arr[i..][1..] == arr[i + 1..];
      result := result + Pad(CutDash(arr[i]), pad);
    }
  }

  function Rendered(str: string, pad: char): string {
    Joined(Split(TrimV(str), ""), pad)
  }

  predicate Greater(a: string, b: string) {
    a != "" && (b == "" || a[0] > b[0] || (a[0] == b[0] && Greater(a[1..], b[1..])))
  }

  // Strings of different lengths always pass, whatever the test.
  method CompareVersionFunc(a: string, b: string, f: (string, string) -> bool, pad: char) returns (r: bool)
    ensures r == Compare(a, b, f, pad)
  {
    var s1 := VersionToStr(a, pad);
    var s2 := VersionToStr(b, pad);
    if |s1| != |s2| {
      return true;
    }
    return f(s1, s2);
  }

  predicate Compare(a: string, b: string, f: (string, string) -> bool, pad: char) {
    var s1, s2 := Rendered(a, pad), Rendered(b, pad);
    |s1| != |s2| || f(s1, s2)
  }

  predicate Newer(a: string, b: string, pad: char) {
    Compare(a, b, (x, y) => Greater(x, y), pad)
  }

  /******* Numeric versions *******/

  function Digit(d: nat): char
    requires d < 10
  {
    "0123456789"[d]
  }

  // The decimal text of a number, without leading zeros.
  function Decimal(n: nat): string {
    if n < 10 then [Digit(n)] else Decimal(n / 10) + [Digit(n % 10)]
  }

  // The text before the first dash of each component is the decimal of a number.
  ghost predicate Numeric(str: string, ns: seq<nat>) {
    var items := Split(TrimV(str), "");
    |items| == |ns| && forall i :: 0 <= i < |ns| ==> CutDash(items[i]) == Decimal(ns[i])
  }

  predicate TupleGreater(a: seq<nat>, b: seq<nat>) {
    a != [] && (b == [] || a[0] > b[0] || (a[0] == b[0] && TupleGreater(a[1..], b[1..])))
  }

  // Both numbers of each pair take the same width: as they do when neither has more than three digits.
  ghost predicate SameWidths(a: seq<nat>, b: seq<nat>) {
    |a| == |b| && forall i :: 0 <= i < |a| ==> Width(a[i]) == Width(b[i])
  }

  function Width(n: nat): nat {
    if |Decimal(n)| < 3 then 3 else |Decimal(n)|
  }

  function Text(ns: seq<nat>, pad: char): string {
    if ns == [] then "" else Pad(Decimal(ns[0]), pad) + Text(ns[1..], pad)
  }

  lemma {:induction false} JoinedIsText(items: seq<string>, ns: seq<nat>, pad: char)
    requires |items| == |ns| && forall i :: 0 <= i < |ns| ==> CutDash(items[i]) == Decimal(ns[i])
    ensures Joined(items, pad) == Text(ns, pad)
    decreases |ns|
  {
    if ns != [] {
      JoinedIsText(items[1..], ns[1..], pad);
    }
  }

  /******* Order of texts *******/

  // Equal-length heads decide first.
  lemma {:induction false} GreaterSplits(a: string, b: string, c: string, d: string)
    requires |a| == |b|
    ensures Greater(a + c, b + d) <==> Greater(a, b) || (a == b && Greater(c, d))
    decreases |a|
  {
    if a == "" {
      assert a + c == c && b + d == d;
    } else {
      assert (a + c)[1..] == a[1..] + c && (b + d)[1..] == b[1..] + d;
      GreaterSplits(a[1..], b[1..], c, d);
      assert a[0] == b[0] && a[1..] == b[1..] ==> a == b;
    }
  }

  lemma {:induction false} DecimalGrows(n: nat, m: nat)
    requires n <= m
    ensures |Decimal(n)| <= |Decimal(m)|
    decreases m
  {
    if n >= 10 {
      DecimalGrows(n / 10, m / 10);
    }
  }

  lemma {:induction false} DecimalOrder(n: nat, m: nat)
    requires |Decimal(n)| == |Decimal(m)|
    ensures Greater(Decimal(n), Decimal(m)) <==> n > m
    ensures Decimal(n) == Decimal(m) <==> n == m
    decreases n
  {
    if n >= 10 {
      DecimalOrder(n / 10, m / 10);
      GreaterSplits(Decimal(n / 10), Decimal(m / 10), [Digit(n % 10)], [Digit(m % 10)]);
      DigitOrder(n % 10, m % 10);
      if Decimal(n) == Decimal(m) {
        assert Decimal(n)[..|Decimal(n)| - 1] == Decimal(n / 10) && Decimal(m)[..|Decimal(m)| - 1] == Decimal(m / 10);
        assert Decimal(n)[|Decimal(n)| - 1] == Digit(n % 10) && Decimal(m)[|Decimal(m)| - 1] == Digit(m % 10);
      }
    } else {
      DigitOrder(n, m);
    }
  }

  lemma DigitOrder(d: nat, e: nat)
    requires d < 10 && e < 10
    ensures Greater([Digit(d)], [Digit(e)]) <==> d > e
    ensures Digit(d) == Digit(e) <==> d == e
  {
    assert Digit(d) as int == '0' as int + d && Digit(e) as int == '0' as int + e;
  }

  lemma {:induction false} LeadingDigit(n: nat)
    requires n > 0
    ensures Decimal(n)[0] > '0'
  {
    if n >= 10 {
      LeadingDigit(n / 10);
    }
  }

  lemma PadWidth(n: nat, pad: char)
    ensures |Pad(Decimal(n), pad)| == Width(n)
  {
    PadLength(Decimal(n), pad);
  }

  lemma {:induction false} PadLength(item: string, pad: char)
    ensures |Pad(item, pad)| == if |item| < 3 then 3 else |item|
    decreases 3 - |item|
  {
    if |item| < 3 {
      PadLength([pad] + item, pad);
    }
  }

  function Blanks(n: nat, pad: char): string {
    if n == 0 then "" else [pad] + Blanks(n - 1, pad)
  }

  lemma {:induction false} PadIsBlanks(item: string, pad: char)
    requires |item| <= 3
    ensures Pad(item, pad) == Blanks(3 - |item|, pad) + item
    decreases 3 - |item|
  {
    if |item| == 3 {
      assert Blanks(0, pad) + item == item;
    } else {
      PadIsBlanks([pad] + item, pad);
      BlanksEnd(2 - |item|, pad);
      assert Blanks(2 - |item|, pad) + ([pad] + item) == (Blanks(2 - |item|, pad) + [pad]) + item;
    }
  }

  lemma {:induction false} BlanksEnd(n: nat, pad: char)
    ensures Blanks(n, pad) + [pad] == Blanks(n + 1, pad) && |Blanks(n, pad)| == n
  {
    if n > 0 {
      BlanksEnd(n - 1, pad);
      assert [pad] + Blanks(n - 1, pad) + [pad] == [pad] + (Blanks(n - 1, pad) + [pad]);
    } else {
      assert Blanks(1, pad) == [pad] + Blanks(0, pad);
    }
  }

  // A shorter number is a smaller one, and its padding sorts below the first digit of the longer.
  lemma PadShorter(n: nat, m: nat, pad: char)
    requires |Decimal(n)| < |Decimal(m)| <= 3 && pad <= '0'
    ensures n < m && Greater(Pad(Decimal(m), pad), Pad(Decimal(n), pad))
    ensures !Greater(Pad(Decimal(n), pad), Pad(Decimal(m), pad)) && Pad(Decimal(n), pad) != Pad(Decimal(m), pad)
  {
    if m <= n {
      DecimalGrows(m, n);
    }
    LeadingDigit(m);
    var x, y := Decimal(n), Decimal(m);
    PadIsBlanks(x, pad);
    PadIsBlanks(y, pad);
    var p := Blanks(3 - |y|, pad);
    var q := Blanks(3 - |x|, pad);
    BlanksEnd(3 - |y|, pad);
    BlanksEnd(3 - |x|, pad);
    BlanksSplit(3 - |y|, |y| - |x|, pad);
    var r := Blanks(|y| - |x|, pad) + x;
    assert q + x == p + r;
    GreaterSplits(p, p, y, r);
    GreaterSplits(p, p, r, y);
    assert r[0] == pad;
    assert (p + y)[|p|] == y[0] && (p + r)[|p|] == r[0];
    NotGreaterSelf(p);
  }

  lemma {:induction false} BlanksSplit(a: nat, b: nat, pad: char)
    ensures Blanks(a + b, pad) == Blanks(a, pad) + Blanks(b, pad)
  {
    if a > 0 {
      BlanksSplit(a - 1, b, pad);
      assert [pad] + (Blanks(a - 1, pad) + Blanks(b, pad)) == [pad] + Blanks(a - 1, pad) + Blanks(b, pad);
    } else {
      assert Blanks(0, pad) + Blanks(b, pad) == Blanks(b, pad);
    }
  }

  lemma {:induction false} NotGreaterSelf(s: string)
    ensures !Greater(s, s)
  {
    if s != "" {
      NotGreaterSelf(s[1..]);
    }
  }

  // Components of one width sort as their numbers.
  lemma PadOrder(n: nat, m: nat, pad: char)
    requires Width(n) == Width(m) && pad <= '0'
    ensures Greater(Pad(Decimal(n), pad), Pad(Decimal(m), pad)) <==> n > m
    ensures Pad(Decimal(n), pad) == Pad(Decimal(m), pad) <==> n == m
  {
    var x, y := Decimal(n), Decimal(m);
    if |x| < |y| {
      PadShorter(n, m, pad);
    } else if |y| < |x| {
      PadShorter(m, n, pad);
    } else {
      DecimalOrder(n, m);
      if |x| <= 3 {
        PadIsBlanks(x, pad);
        PadIsBlanks(y, pad);
        var p := Blanks(3 - |x|, pad);
        GreaterSplits(p, p, x, y);
        NotGreaterSelf(p);
        assert (p + x)[|p|..] == x && (p + y)[|p|..] == y;
      }
    }
  }

  lemma {:induction false} TextOrder(ns: seq<nat>, ms: seq<nat>, pad: char)
    requires SameWidths(ns, ms) && pad <= '0'
    ensures |Text(ns, pad)| == |Text(ms, pad)|
    ensures Greater(Text(ns, pad), Text(ms, pad)) <==> TupleGreater(ns, ms)
    decreases |ns|
  {
    if ns != [] {
      TextOrder(ns[1..], ms[1..], pad);
      PadOrder(ns[0], ms[0], pad);
      PadWidth(ns[0], pad);
      PadWidth(ms[0], pad);
      GreaterSplits(Pad(Decimal(ns[0]), pad), Pad(Decimal(ms[0]), pad), Text(ns[1..], pad), Text(ms[1..], pad));
    }
  }

  /******* String order is version order *******/

  lemma NewerIffTupleGreater(a: string, b: string, ns: seq<nat>, ms: seq<nat>, pad: char)
    requires Numeric(a, ns) && Numeric(b, ms) && SameWidths(ns, ms) && pad <= '0'
    ensures Newer(a, b, pad) <==> TupleGreater(ns, ms)
  {
    JoinedIsText(Split(TrimV(a), ""), ns, pad);
    JoinedIsText(Split(TrimV(b), ""), ms, pad);
    TextOrder(ns, ms, pad);
  }

  lemma ThreeDigitsSameWidth(ns: seq<nat>, ms: seq<nat>)
    requires |ns| == |ms| && (forall n :: n in ns ==> n < 1000) && (forall m :: m in ms ==> m < 1000)
    ensures SameWidths(ns, ms)
  {
    forall i | 0 <= i < |ns| ensures Width(ns[i]) == 3 == Width(ms[i]) {
      assert ns[i] in ns && ms[i] in ms;
      ThreeDigits(ns[i]);
      ThreeDigits(ms[i]);
    }
  }

  lemma ThreeDigits(n: nat)
    requires n < 1000
    ensures |Decimal(n)| <= 3
  {
    if n >= 10 {
      assert |Decimal(n)| == |Decimal(n / 10)| + 1;
      if n >= 100 {
        assert |Decimal(n / 10)| == |Decimal(n / 10 / 10)| + 1;
      }
    }
  }

  // A leading v does not matter.
  lemma LeadingV(s: string, pad: char)
    requires s == "" || s[0] != 'v'
    ensures Rendered("v" + s, pad) == Rendered(s, pad)
  {
    assert ("v" + s)[1..] == s;
  }

  // The order on tuples is strict and total.
  lemma {:induction false} TupleTotal(a: seq<nat>, b: seq<nat>)
    ensures TupleGreater(a, b) || TupleGreater(b, a) || a == b
    ensures !(TupleGreater(a, b) && TupleGreater(b, a)) && !TupleGreater(a, a)
    decreases |a|
  {
    if a != [] {
      TupleTotal(a[1..], a[1..]);
      if b != [] {
        TupleTotal(a[1..], b[1..]);
        assert a[0] == b[0] && a[1..] == b[1..] ==> a == b;
      }
    }
  }

  lemma {:induction false} TupleTransitive(a: seq<nat>, b: seq<nat>, c: seq<nat>)
    requires TupleGreater(a, b) && TupleGreater(b, c)
    ensures TupleGreater(a, c)
    decreases |a|
  {
    if b != [] && c != [] && a[0] == b[0] == c[0] {
      TupleTransitive(a[1..], b[1..], c[1..]);
    }
  }

  // Texts of different lengths are each newer than the other, so exactly one answer is right.
  lemma DifferentLengths(a: string, b: string, ns: seq<nat>, ms: seq<nat>, pad: char)
    requires Numeric(a, ns) && Numeric(b, ms) && |Text(ns, pad)| != |Text(ms, pad)|
    ensures Newer(a, b, pad) && Newer(b, a, pad)
    ensures (Newer(a, b, pad) <==> TupleGreater(ns, ms)) != (Newer(b, a, pad) <==> TupleGreater(ms, ns))
  {
    JoinedIsText(Split(TrimV(a), ""), ns, pad);
    JoinedIsText(Split(TrimV(b), ""), ms, pad);
    TupleTotal(ns, ms);
    assert ns != ms;
  }

  /******* Texts of one length: exactly when the order is right *******/

  // The number made of the first w digits.
  function Lead(n: nat, w: nat): nat
    requires 0 < w
  {
    if |Decimal(n)| <= w then n else Lead(n / 10, w)
  }

  lemma {:induction false} LeadDigits(n: nat, w: nat)
    requires 0 < w <= |Decimal(n)|
    ensures Decimal(Lead(n, w)) == Decimal(n)[..w]
  {
    if w < |Decimal(n)| {
      LeadDigits(n / 10, w);
    }
  }

  // Up to their first difference two texts agree.
  lemma {:induction false} FirstDifferenceDecides(ns: seq<nat>, ms: seq<nat>, k: nat, pad: char)
    requires k <= |ns| && k <= |ms| && ns[..k] == ms[..k]
    ensures TupleGreater(ns, ms) <==> TupleGreater(ns[k..], ms[k..])
    ensures |Text(ns, pad)| - |Text(ms, pad)| == |Text(ns[k..], pad)| - |Text(ms[k..], pad)|
    ensures Greater(Text(ns, pad), Text(ms, pad)) <==> Greater(Text(ns[k..], pad), Text(ms[k..], pad))
    decreases k
  {
    if k == 0 {
      assert ns[0..] == ns && ms[0..] == ms;
    } else {
      assert ns[0] == ns[..k][0] == ms[..k][0] == ms[0];
      assert ns[1..][..k - 1] == ns[..k][1..] && ms[1..][..k - 1] == ms[..k][1..];
      FirstDifferenceDecides(ns[1..], ms[1..], k - 1, pad);
      assert ns[1..][k - 1..] == ns[k..] && ms[1..][k - 1..] == ms[k..];
      var p := Pad(Decimal(ns[0]), pad);
      GreaterSplits(p, p, Text(ns[1..], pad), Text(ms[1..], pad));
      NotGreaterSelf(p);
    }
  }

  // What follows the first digits of the first component, as many as the narrower one takes.
  function Beyond(ns: seq<nat>, w: nat, pad: char): string
    requires ns != [] && w <= |Decimal(ns[0])|
  {
    Decimal(ns[0])[w..] + Text(ns[1..], pad)
  }

  // A wider component, which is the larger number, is compared by its first digits only; if these are
  // the narrower number, its other digits meet the next component.
  lemma WiderAgainstNarrower(ns: seq<nat>, ms: seq<nat>, pad: char)
    requires ns != [] && ms != [] && Width(ns[0]) > Width(ms[0]) && pad <= '0'
    ensures var w := Width(ms[0]);
            var lead := Lead(ns[0], w);
            && ns[0] > ms[0] && |Decimal(ns[0])| > w
            && (Greater(Text(ns, pad), Text(ms, pad)) <==>
                  lead > ms[0] || (lead == ms[0] && Greater(Beyond(ns, w, pad), Text(ms[1..], pad))))
            && (Greater(Text(ms, pad), Text(ns, pad)) <==>
                  lead < ms[0] || (lead == ms[0] && Greater(Text(ms[1..], pad), Beyond(ns, w, pad))))
  {
    var n, m, w := ns[0], ms[0], Width(ms[0]);
    if n <= m {
      DecimalGrows(n, m);
    }
    var lead := Lead(n, w);
    LeadDigits(n, w);
    var head, tail := Decimal(n)[..w], Decimal(n)[w..];
    assert Decimal(n) == head + tail && Decimal(lead) == head;
    PadOrder(lead, m, pad);
    PadOrder(m, lead, pad);
    PadWidth(m, pad);
    var low := Pad(Decimal(m), pad);
    assert Text(ns, pad) == head + Beyond(ns, w, pad) by {
      assert (head + tail) + Text(ns[1..], pad) == head + (tail + Text(ns[1..], pad));
    }
    GreaterSplits(head, low, Beyond(ns, w, pad), Text(ms[1..], pad));
    GreaterSplits(low, head, Text(ms[1..], pad), Beyond(ns, w, pad));
  }

  // The answers to both questions about two versions are those of their tuples.
  ghost predicate RightlyOrdered(a: string, b: string, ns: seq<nat>, ms: seq<nat>, pad: char) {
    (Newer(a, b, pad) <==> TupleGreater(ns, ms)) && (Newer(b, a, pad) <==> TupleGreater(ms, ns))
  }

  // The wider of the first two components shows that it is the larger.
  ghost predicate Shows(ns: seq<nat>, ms: seq<nat>, pad: char)
    requires ns != [] && ms != [] && Width(ms[0]) < Width(ns[0])
  {
    var w := Width(ms[0]);
    || Lead(ns[0], w) > ms[0]
    || (Lead(ns[0], w) == ms[0] && w <= |Decimal(ns[0])| && Greater(Beyond(ns, w, pad), Text(ms[1..], pad)))
  }

  // With different first components, the texts are in the order of the tuples exactly when these have
  // one width or the wider shows that it is the larger.
  lemma FirstComponents(ns: seq<nat>, ms: seq<nat>, pad: char)
    requires ns != [] && ms != [] && ns[0] != ms[0] && pad <= '0'
    ensures InOrder(ns, ms, pad) <==>
              && (Width(ms[0]) < Width(ns[0]) ==> Shows(ns, ms, pad))
              && (Width(ns[0]) < Width(ms[0]) ==> Shows(ms, ns, pad))
  {
    if Width(ms[0]) < Width(ns[0]) {
      WiderDecides(ns, ms, pad);
    } else if Width(ns[0]) < Width(ms[0]) {
      WiderDecides(ms, ns, pad);
    } else {
      HeadsDecide(ns, ms, pad);
      HeadsDecide(ms, ns, pad);
    }
  }

  ghost predicate InOrder(ns: seq<nat>, ms: seq<nat>, pad: char) {
    && (Greater(Text(ns, pad), Text(ms, pad)) <==> TupleGreater(ns, ms))
    && (Greater(Text(ms, pad), Text(ns, pad)) <==> TupleGreater(ms, ns))
  }

  lemma WiderDecides(ns: seq<nat>, ms: seq<nat>, pad: char)
    requires ns != [] && ms != [] && Width(ms[0]) < Width(ns[0]) && pad <= '0'
    ensures InOrder(ns, ms, pad) <==> Shows(ns, ms, pad)
  {
    WiderAgainstNarrower(ns, ms, pad);
    if Greater(Text(ns, pad), Text(ms, pad)) {
      Asymmetric(Text(ns, pad), Text(ms, pad));
    }
  }

  // Two different versions are rightly ordered exactly when their texts have one length and, where
  // they first differ, the two components have one width, or the wider shows that it is the larger.
  lemma RightlyOrderedIff(a: string, b: string, ns: seq<nat>, ms: seq<nat>, k: nat, pad: char)
    requires Numeric(a, ns) && Numeric(b, ms) && pad <= '0'
    requires k < |ns| && k < |ms| && ns[..k] == ms[..k] && ns[k] != ms[k]
    ensures RightlyOrdered(a, b, ns, ms, pad) <==>
              && |Text(ns, pad)| == |Text(ms, pad)|
              && (Width(ms[k]) < Width(ns[k]) ==> Shows(ns[k..], ms[k..], pad))
              && (Width(ns[k]) < Width(ms[k]) ==> Shows(ms[k..], ns[k..], pad))
  {
    JoinedIsText(Split(TrimV(a), ""), ns, pad);
    JoinedIsText(Split(TrimV(b), ""), ms, pad);
    if |Text(ns, pad)| != |Text(ms, pad)| {
      DifferentLengths(a, b, ns, ms, pad);
    } else {
      assert RightlyOrdered(a, b, ns, ms, pad) <==> InOrder(ns, ms, pad);
      FirstDifferenceDecides(ns, ms, k, pad);
      FirstDifferenceDecides(ms, ns, k, pad);
      assert InOrder(ns, ms, pad) <==> InOrder(ns[k..], ms[k..], pad);
      FirstComponents(ns[k..], ms[k..], pad);
    }
  }

  lemma {:induction false} Asymmetric(s: string, t: string)
    requires Greater(s, t)
    ensures !Greater(t, s)
  {
    if t != "" && s[0] == t[0] {
      Asymmetric(s[1..], t[1..]);
    }
  }

  // Different components of one width decide.
  lemma HeadsDecide(ns: seq<nat>, ms: seq<nat>, pad: char)
    requires ns != [] && ms != [] && Width(ns[0]) == Width(ms[0]) && ns[0] != ms[0] && pad <= '0'
    ensures Greater(Text(ns, pad), Text(ms, pad)) <==> ns[0] > ms[0]
  {
    PadOrder(ns[0], ms[0], pad);
    PadWidth(ns[0], pad);
    PadWidth(ms[0], pad);
    GreaterSplits(Pad(Decimal(ns[0]), pad), Pad(Decimal(ms[0]), pad), Text(ns[1..], pad), Text(ms[1..], pad));
  }

  // Versions with no first difference: one continues the other, and the longer has the longer text.
  lemma {:induction false} ContinuedIsLonger(ns: seq<nat>, ms: seq<nat>, pad: char)
    requires ns < ms
    ensures |Text(ns, pad)| < |Text(ms, pad)|
    decreases |ms|
  {
    PadWidth(ms[0], pad);
    if ns != [] {
      ContinuedIsLonger(ns[1..], ms[1..], pad);
    }
  }

  // Without a first difference: equal tuples are rightly ordered, a version and its continuation never.
  lemma NoDifference(a: string, b: string, ns: seq<nat>, ms: seq<nat>, pad: char)
    requires Numeric(a, ns) && Numeric(b, ms) && (ns <= ms || ms <= ns)
    ensures RightlyOrdered(a, b, ns, ms, pad) <==> ns == ms
  {
    if ns == ms {
      JoinedIsText(Split(TrimV(a), ""), ns, pad);
      JoinedIsText(Split(TrimV(b), ""), ms, pad);
      NotGreaterSelf(Text(ns, pad));
      TupleTotal(ns, ns);
    } else {
      if ns < ms {
        ContinuedIsLonger(ns, ms, pad);
      } else {
        ContinuedIsLonger(ms, ns, pad);
      }
      DifferentLengths(a, b, ns, ms, pad);
    }
  }

  // A number below one hundred is padded, so every wider component shows that it is larger.
  lemma BelowHundredShows(ns: seq<nat>, ms: seq<nat>, pad: char)
    requires ns != [] && ms != [] && Width(ms[0]) < Width(ns[0]) && ms[0] < 100
    ensures Shows(ns, ms, pad)
  {
    var lead := Lead(ns[0], Width(ms[0]));
    LeadDigits(ns[0], Width(ms[0]));
    assert ms[0] >= 10 ==> |Decimal(ms[0])| == |Decimal(ms[0] / 10)| + 1;
    if lead <= ms[0] {
      DecimalGrows(lead, ms[0]);
    }
  }

  /******* Every tuple is the tuple of some version *******/

  function Dotted(ns: seq<nat>): string
    requires ns != []
  {
    if |ns| == 1 then Decimal(ns[0]) else Decimal(ns[0]) + "." + Dotted(ns[1..])
  }

  predicate Plain(s: string) {
    forall i :: 0 <= i < |s| ==> '0' <= s[i] <= '9'
  }

  lemma {:induction false} DecimalIsPlain(n: nat)
    ensures Plain(Decimal(n)) && Decimal(n) != ""
  {
    if n >= 10 {
      DecimalIsPlain(n / 10);
    }
  }

  lemma {:induction false} PlainIsUncut(s: string)
    requires Plain(s)
    ensures CutDash(s) == s
  {
    if s != "" {
      PlainIsUncut(s[1..]);
    }
  }

  lemma {:induction false} SplitPlain(x: string, item: string, rest: string)
    requires '.' !in x
    ensures Split(x, item) == [item + x]
    ensures Split(x + "." + rest, item) == [item + x] + Split(rest, "")
    decreases |x|
  {
    if x == "" {
      assert item + x == item && ("." + rest)[1..] == rest && x + "." + rest == "." + rest;
    } else {
      assert (x + "." + rest)[1..] == x[1..] + "." + rest;
      SplitPlain(x[1..], item + [x[0]], rest);
      assert item + [x[0]] + x[1..] == item + x;
    }
  }

  lemma {:induction false} SplitDotted(ns: seq<nat>)
    requires ns != []
    ensures |Split(Dotted(ns), "")| == |ns|
    ensures forall i :: 0 <= i < |ns| ==> Split(Dotted(ns), "")[i] == Decimal(ns[i])
    ensures Dotted(ns) != "" && Dotted(ns)[0] != 'v'
    decreases |ns|
  {
    DecimalIsPlain(ns[0]);
    assert "" + Decimal(ns[0]) == Decimal(ns[0]) && '.' !in Decimal(ns[0]);
    if |ns| == 1 {
      SplitPlain(Decimal(ns[0]), "", "");
    } else {
      SplitDotted(ns[1..]);
      SplitPlain(Decimal(ns[0]), "", Dotted(ns[1..]));
    }
  }

  lemma DottedIsNumeric(ns: seq<nat>)
    requires ns != []
    ensures Numeric(Dotted(ns), ns)
  {
    SplitDotted(ns);
    forall i | 0 <= i < |ns| ensures CutDash(Split(Dotted(ns), "")[i]) == Decimal(ns[i]) {
      DecimalIsPlain(ns[i]);
      PlainIsUncut(Decimal(ns[i]));
    }
  }

  // The components with something after each number: nothing, or a dash and any text without a dot.
  function Tailed(ns: seq<nat>, tails: seq<string>): string
    requires ns != [] && |tails| == |ns|
  {
    if |ns| == 1 then Decimal(ns[0]) + tails[0] else Decimal(ns[0]) + tails[0] + "." + Tailed(ns[1..], tails[1..])
  }

  ghost predicate Tails(tails: seq<string>) {
    forall i :: 0 <= i < |tails| ==> tails[i] == "" || (tails[i][0] == '-' && '.' !in tails[i])
  }

  lemma {:induction false} CutAtDash(s: string, tail: string)
    requires Plain(s) && (tail == "" || tail[0] == '-')
    ensures CutDash(s + tail) == s
  {
    if s == "" {
      assert s + tail == tail;
    } else {
      assert (s + tail)[1..] == s[1..] + tail;
      CutAtDash(s[1..], tail);
    }
  }

  lemma {:induction false} SplitTailed(ns: seq<nat>, tails: seq<string>)
    requires ns != [] && |tails| == |ns| && Tails(tails)
    ensures |Split(Tailed(ns, tails), "")| == |ns|
    ensures forall i :: 0 <= i < |ns| ==> Split(Tailed(ns, tails), "")[i] == Decimal(ns[i]) + tails[i]
    ensures Tailed(ns, tails) != "" && Tailed(ns, tails)[0] != 'v'
    decreases |ns|
  {
    DecimalIsPlain(ns[0]);
    var first := Decimal(ns[0]) + tails[0];
    assert '.' !in first && "" + first == first && first[0] == Decimal(ns[0])[0];
    if |ns| == 1 {
      SplitPlain(first, "", "");
    } else {
      SplitTailed(ns[1..], tails[1..]);
      SplitPlain(first, "", Tailed(ns[1..], tails[1..]));
      assert Tailed(ns, tails) == first + "." + Tailed(ns[1..], tails[1..]);
    }
  }

  // From its first dash on, a component does not count.
  lemma TailsAreDropped(ns: seq<nat>, tails: seq<string>, pad: char)
    requires ns != [] && |tails| == |ns| && Tails(tails)
    ensures Numeric(Tailed(ns, tails), ns) && Rendered(Tailed(ns, tails), pad) == Rendered(Dotted(ns), pad)
  {
    SplitTailed(ns, tails);
    DottedIsNumeric(ns);
    forall i | 0 <= i < |ns| ensures CutDash(Split(Tailed(ns, tails), "")[i]) == Decimal(ns[i]) {
      DecimalIsPlain(ns[i]);
      CutAtDash(Decimal(ns[i]), tails[i]);
    }
    JoinedIsText(Split(TrimV(Tailed(ns, tails)), ""), ns, pad);
    JoinedIsText(Split(TrimV(Dotted(ns)), ""), ns, pad);
  }

  // 1.999 is taken to be newer than 1.1000.
  lemma FourDigitsBreakTheOrder(pad: char)
    ensures Newer(Dotted([1, 999]), Dotted([1, 1000]), pad) && TupleGreater([1, 1000], [1, 999])
  {
    var ns, ms: seq<nat> := [1, 999], [1, 1000];
    DottedIsNumeric(ns);
    DottedIsNumeric(ms);
    assert |Decimal(1000)| == 4 by {
      assert |Decimal(100)| == |Decimal(10)| + 1 && |Decimal(10)| == 2;
    }
    ThreeDigits(999);
    PadWidth(1, pad);
    PadWidth(999, pad);
    PadWidth(1000, pad);
    assert ns[1..] == [999] && ms[1..] == [1000];
    assert |Text([999], pad)| == 3 && |Text([1000], pad)| == 4 by {
      assert [999][1..] == [] && [1000][1..] == [];
    }
    DifferentLengths(Dotted(ns), Dotted(ms), ns, ms, pad);
  }

  lemma Thousand()
    ensures |Decimal(1000)| == 4 && |Decimal(999)| == 3 && Lead(1000, 3) == 100
  {
    assert |Decimal(100)| == |Decimal(10)| + 1 && |Decimal(10)| == 2;
    assert |Decimal(999)| == |Decimal(99)| + 1 && |Decimal(99)| == 2;
  }

  // Texts of one length do not help: 999.1000 is taken to be newer than 1000.999.
  lemma OneLengthBreaksTheOrder(pad: char)
    requires pad <= '0'
    ensures var a, b := Dotted([999, 1000]), Dotted([1000, 999]);
            |Rendered(a, pad)| == |Rendered(b, pad)| && Newer(a, b, pad) && TupleGreater([1000, 999], [999, 1000])
  {
    var ns, ms: seq<nat> := [999, 1000], [1000, 999];
    DottedIsNumeric(ns);
    DottedIsNumeric(ms);
    JoinedIsText(Split(TrimV(Dotted(ns)), ""), ns, pad);
    JoinedIsText(Split(TrimV(Dotted(ms)), ""), ms, pad);
    Thousand();
    PadWidth(999, pad);
    PadWidth(1000, pad);
    assert ns[1..] == [1000] && ms[1..] == [999] && ns[1..][1..] == [] && ms[1..][1..] == [];
    WiderAgainstNarrower(ms, ns, pad);
  }
}
