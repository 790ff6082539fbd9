/** The rating summary on the profile page: the average shown to one
    decimal, a five-slot star row, and the number of ratings. */
module ProfileView {
  import opened Domain
  import opened UserModel
  import Requests

  // ---------------------------------------------------------------------------
  // The displayed number

  /** The mean `sum / n` in tenths, rounded half away from zero, as PHP's
      `number_format(avg, 1)` rounds. */
  function RoundedTenths(sum: int, n: nat): (t: int)
    requires n > 0
    ensures sum >= 0 ==> 2 * n * t <= 20 * sum + n < 2 * n * t + 2 * n
    ensures sum < 0 ==> 2 * n * t - 2 * n < 20 * sum - n <= 2 * n * t
  {
    if sum >= 0 then (20 * sum + n) / (2 * n)
    else -((20 * (-sum) + n) / (2 * n))
  }

  /** The rounded tenths never lie more than half a tenth from the mean. */
  lemma RoundedTenthsIsNearest(sum: int, n: nat)
    requires n > 0
    ensures var t := RoundedTenths(sum, n);
      -(n as int) <= 2 * n * t - 20 * sum <= n
  {
  }

  predicate NoSeparator(d: string) {
    forall i :: 0 <= i < |d| ==> d[i] != ','
  }

  /** `d` with every thousands separator removed. */
  function Unseparated(g: string): string {
    if g == [] then []
    else Unseparated(g[..|g| - 1]) + (if g[|g| - 1] == ',' then [] else [g[|g| - 1]])
  }

  lemma {:induction false} UnseparatedAppend(a: string, b: string)
    ensures Unseparated(a + b) == Unseparated(a) + Unseparated(b)
    decreases |b|
  {
    if b == [] {
      assert a + b == a;
    } else {
      assert (a + b)[..|a + b| - 1] == a + b[..|b| - 1];
      UnseparatedAppend(a, b[..|b| - 1]);
    }
  }

  lemma {:induction false} UnseparatedKeeps(d: string)
    requires NoSeparator(d)
    ensures Unseparated(d) == d
    decreases |d|
  {
    if d != [] {
      var init := d[..|d| - 1];
      assert NoSeparator(init) by {
        forall i | 0 <= i < |init| ensures init[i] != ',' {
          assert init[i] == d[i];
        }
      }
      UnseparatedKeeps(init);
      assert d[|d| - 1] != ',';
      assert d == init + [d[|d| - 1]];
    }
  }

  lemma UnseparatedAround(p: string, g: string, q: string)
    requires NoSeparator(p) && NoSeparator(q)
    ensures Unseparated(p + g + q) == p + Unseparated(g) + q
  {
    UnseparatedAppend(p + g, q);
    UnseparatedAppend(p, g);
    UnseparatedKeeps(p);
    UnseparatedKeeps(q);
  }

  lemma SeparatorDropped(head: string, tail: string)
    requires NoSeparator(tail)
    ensures Unseparated(head + "," + tail) == Unseparated(head) + tail
  {
    UnseparatedAppend(head + ",", tail);
    UnseparatedAppend(head, ",");
    UnseparatedComma();
    UnseparatedKeeps(tail);
  }

  lemma UnseparatedComma()
    ensures Unseparated(",") == []
  {
    assert ","[..0] == [];
  }

  /** A comma stands exactly where a positive multiple of four characters
      separates it from the end, never first. */
  predicate CommasEveryThree(g: string) {
    forall i :: 0 <= i < |g| ==> (g[i] == ',' <==> i > 0 && (|g| - i) % 4 == 0)
  }

  lemma SeparatorPlaced(head: string, tail: string)
    requires |head| >= 1 && |tail| == 3 && NoSeparator(tail)
    requires CommasEveryThree(head)
    ensures CommasEveryThree(head + "," + tail)
  {
    var g := head + "," + tail;
    forall i | 0 <= i < |g| ensures (g[i] == ',' <==> i > 0 && (|g| - i) % 4 == 0) {
      if i < |head| {
        assert g[i] == head[i] && (|g| - i) % 4 == (|head| - i) % 4;
      } else if i > |head| {
        assert g[i] == tail[i - |head| - 1] && 0 < |g| - i < 4;
      }
    }
  }

  /** Up to three digits need no separator. */
  lemma ShortGroup(d: string)
    requires NoSeparator(d) && |d| <= 3
    ensures Unseparated(d) == d && CommasEveryThree(d)
    ensures |d| > 0 ==> (|d| - 1) / 3 == 0
  {
    UnseparatedKeeps(d);
    forall i | 0 <= i < |d| ensures (d[i] == ',' <==> i > 0 && (|d| - i) % 4 == 0) {
      ShortDistance(|d| - i);
    }
  }

  lemma ShortDistance(k: int)
    requires 0 < k < 4
    ensures k % 4 != 0 && (k - 1) / 3 == 0
  {
  }

  /** Grouping the digits before the last three and appending a comma and
      those three groups the whole. */
  lemma GroupStep(d: string, head: string)
    requires NoSeparator(d) && |d| > 3
    requires |head| == (|d| - 3) + (|d| - 4) / 3 && head[0] == d[0]
    requires Unseparated(head) == d[..|d| - 3] && CommasEveryThree(head)
    ensures var g := head + "," + d[|d| - 3..];
      && |g| == |d| + (|d| - 1) / 3 && g[0] == d[0]
      && Unseparated(g) == d && CommasEveryThree(g)
  {
    var tail := d[|d| - 3..];
    assert d == d[..|d| - 3] + tail;
    assert (|d| - 1) / 3 == (|d| - 4) / 3 + 1;
    SeparatorDropped(head, tail);
    SeparatorPlaced(head, tail);
  }

  /** The integer digits `d` with a "," between every three, counted from
      the right, as `number_format` writes them by default. */
  function Grouped(d: string): (g: string)
    requires NoSeparator(d)
    ensures |d| <= 3 ==> g == d
    ensures |g| >= |d|
    ensures |d| > 0 ==> |g| == |d| + (|d| - 1) / 3
    ensures |d| > 0 ==> g[0] == d[0]
    ensures Unseparated(g) == d
    ensures CommasEveryThree(g)
    decreases |d|
  {
    if |d| <= 3 then
      ShortGroup(d);
      d
    else
      var head := Grouped(d[..|d| - 3]);
      GroupStep(d, head);
      head + "," + d[|d| - 3..]
  }

  /** Past a sign of `signLength` characters, a comma stands exactly where
      a multiple of four characters separates it from the decimal point, the
      second-to-last character. */
  predicate CommasFromPoint(r: string, signLength: nat) {
    forall i :: 0 <= i < |r| ==> (r[i] == ',' <==> signLength < i < |r| - 2 && (|r| - 2 - i) % 4 == 0)
  }

  /** `t` tenths as text with exactly one decimal and grouped thousands
      ("4.3", "4.0", "-0.5", "1,000.0"). */
  function TenthsText(t: int): (r: string)
    ensures |r| >= 3 && r[|r| - 2] == '.'
    ensures t >= 0 ==> r[0] != '-'
    ensures var a: nat := if t < 0 then -t else t;
      Unseparated(r) == (if t < 0 then "-" else "") + Requests.DecimalText(a / 10) + "." + Requests.DecimalText(a % 10)
    ensures var a: nat := if t < 0 then -t else t;
      var w := Requests.DecimalText(a / 10);
      |r| == (if t < 0 then 1 else 0) + |w| + (|w| - 1) / 3 + 2
    ensures CommasFromPoint(r, if t < 0 then 1 else 0)
  {
    var a: nat := if t < 0 then -t else t;
    var sign := if t < 0 then "-" else "";
    var whole := Requests.DecimalText(a / 10);
    var tenth := Requests.DecimalText(a % 10);
    assert Requests.IsDigit(whole[0]) && Requests.IsDigit(tenth[0]);
    WithGroupedThousands(sign, whole, tenth)
  }

  /** `sign`, the grouped digits `whole`, a point and the digit `tenth`. */
  function WithGroupedThousands(sign: string, whole: string, tenth: string): (r: string)
    requires sign == "" || sign == "-"
    requires Requests.CanonicalDigits(whole)
    requires |tenth| == 1 && Requests.IsDigit(tenth[0])
    ensures |r| >= 3 && r[|r| - 2] == '.'
    ensures sign == "" ==> r[0] != '-'
    ensures Unseparated(r) == sign + whole + "." + tenth
    ensures |r| == |sign| + |whole| + (|whole| - 1) / 3 + 2
    ensures CommasFromPoint(r, |sign|)
  {
    DigitsHaveNoSeparator(whole);
    var g := Grouped(whole);
    TenthsLayout(sign, g, whole, tenth);
    sign + g + "." + tenth
  }

  /** The commas of the grouped integer part keep their places, counted
      from the decimal point, once the sign and the tenth are attached. */
  lemma CommasInIntegerPart(sign: string, g: string, tenth: string)
    requires sign == "" || sign == "-"
    requires CommasEveryThree(g)
    requires |tenth| == 1 && tenth[0] != ','
    ensures CommasFromPoint(sign + g + "." + tenth, |sign|)
  {
    var r := sign + g + "." + tenth;
    forall i | 0 <= i < |r| ensures (r[i] == ',' <==> |sign| < i < |r| - 2 && (|r| - 2 - i) % 4 == 0) {
      if i < |sign| {
        assert r[i] == '-';
      } else if i < |sign| + |g| {
        assert r[i] == g[i - |sign|];
        assert |r| - 2 - i == |g| - (i - |sign|);
      } else if i == |r| - 2 {
        assert r[i] == '.';
      } else {
        assert r[i] == tenth[0];
      }
    }
  }

  lemma DigitsHaveNoSeparator(d: string)
    requires forall i :: 0 <= i < |d| ==> Requests.IsDigit(d[i])
    ensures NoSeparator(d)
  {
  }

  lemma TenthsLayout(sign: string, g: string, whole: string, tenth: string)
    requires sign == "" || sign == "-"
    requires |whole| > 0 && Requests.IsDigit(whole[0])
    requires |g| == |whole| + (|whole| - 1) / 3 && g[0] == whole[0] && Unseparated(g) == whole
    requires CommasEveryThree(g)
    requires |tenth| == 1 && Requests.IsDigit(tenth[0])
    ensures var r := sign + g + "." + tenth;
      && |r| >= 3 && r[|r| - 2] == '.'
      && (sign == "" ==> r[0] != '-')
      && Unseparated(r) == sign + whole + "." + tenth
      && |r| == |sign| + |whole| + (|whole| - 1) / 3 + 2
      && CommasFromPoint(r, |sign|)
  {
    CommasInIntegerPart(sign, g, tenth);
    DigitsHaveNoSeparator(tenth);
    assert NoSeparator("." + tenth) by {
      assert ("." + tenth)[1] == tenth[0];
    }
    UnseparatedAround(sign, g, "." + tenth);
    assert sign + g + "." + tenth == sign + g + ("." + tenth);
  }

  // ---------------------------------------------------------------------------
  // The star row

  datatype Star = Filled | Half | Empty

  /** Whole stars: the floor of the mean. */
  function FullStars(sum: int, n: nat): int
    requires n > 0
  {
    sum / n
  }

  /** A half star follows when the fractional part of the mean is at least 0.5. */
  predicate HasHalfStar(sum: int, n: nat)
    requires n > 0
  {
    2 * (sum % n) >= n
  }

  /** Slots 1..5: filled up to the floor of the mean, then one half star if
      the fraction is at least a half, then empty. */
  function Stars(sum: int, n: nat): (stars: seq<Star>)
    requires n > 0
    ensures |stars| == 5
    ensures forall i :: 0 <= i < 5 ==> (stars[i] == Filled <==> i + 1 <= FullStars(sum, n))
    ensures forall i :: 0 <= i < 5 ==> (stars[i] == Half <==> i + 1 == FullStars(sum, n) + 1 && HasHalfStar(sum, n))
  {
    seq(5, i requires 0 <= i < 5 =>
      if i + 1 <= FullStars(sum, n) then Filled
      else if i + 1 == FullStars(sum, n) + 1 && HasHalfStar(sum, n) then Half
      else Empty)
  }

  /** The floor and the half-star test describe the mean exactly:
      full <= mean < full + 1, and the half star marks mean >= full + 0.5. */
  lemma StarsMatchMean(sum: int, n: nat)
    requires n > 0
    ensures n * FullStars(sum, n) <= sum < n * FullStars(sum, n) + n
    ensures HasHalfStar(sum, n) <==> 2 * sum >= 2 * n * FullStars(sum, n) + n
  {
  }

  /** At most one half star, and none once all five are filled. */
  lemma AtMostOneHalfStar(sum: int, n: nat, i: int, j: int)
    requires n > 0
    requires 0 <= i < 5 && 0 <= j < 5
    requires Stars(sum, n)[i] == Half && Stars(sum, n)[j] == Half
    ensures i == j && FullStars(sum, n) < 5
  {
  }

  // ---------------------------------------------------------------------------
  // The block

  datatype RatingBlock =
    | NoRatingsYet
    | Rated(stars: seq<Star>, average: string, count: nat)

  /** With no ratings only the "no ratings yet" text shows; otherwise the
      stars, the rounded average and the count of received ratings. */
  function RatingSummary(s: Store, u: UserId): (b: RatingBlock)
    ensures b.NoRatingsYet? <==> RatingCount(s, u) == 0
    ensures b.Rated? ==>
      && AverageRating(s, u).Some?
      && b.count == RatingCount(s, u)
      && |b.stars| == 5
      && b.stars == Stars(AverageRating(s, u).value.sum, AverageRating(s, u).value.count)
      && b.average == TenthsText(RoundedTenths(AverageRating(s, u).value.sum, AverageRating(s, u).value.count))
  {
    match AverageRating(s, u)
    case None => NoRatingsYet
    case Some(avg) => Rated(Stars(avg.sum, avg.count), TenthsText(RoundedTenths(avg.sum, avg.count)), avg.count)
  }

  /** The averages the profile tests expect. */
  lemma DisplayExamples()
    ensures TenthsText(RoundedTenths(13, 3)) == "4.3"
    ensures TenthsText(RoundedTenths(10, 3)) == "3.3"
    ensures TenthsText(RoundedTenths(7, 2)) == "3.5"
    ensures TenthsText(RoundedTenths(8, 2)) == "4.0"
  {
    assert RoundedTenths(13, 3) == 43 && RoundedTenths(10, 3) == 33;
    assert RoundedTenths(7, 2) == 35 && RoundedTenths(8, 2) == 40;
    SingleDigitMean(43);
    SingleDigitMean(33);
    SingleDigitMean(35);
    SingleDigitMean(40);
  }

  /** The number and the stars round differently: a mean of 3.45 shows as
      "3.5" beside three full stars and no half star. */
  lemma DisplayAndStarsDiffer()
    ensures TenthsText(RoundedTenths(69, 20)) == "3.5"
    ensures Stars(69, 20) == [Filled, Filled, Filled, Empty, Empty]
  {
    assert RoundedTenths(69, 20) == 35;
    SingleDigitMean(35);
  }

  /** A mean below ten is written as its digit, a point and its tenth. */
  lemma SingleDigitMean(t: int)
    requires 0 <= t < 100
    ensures TenthsText(t) == [('0' as int + t / 10) as char, '.', ('0' as int + t % 10) as char]
  {
    var whole := Requests.DecimalText(t / 10);
    var tenth := Requests.DecimalText(t % 10);
    assert whole == [('0' as int + t / 10) as char];
    assert tenth == [('0' as int + t % 10) as char];
    assert TenthsText(t) == WithGroupedThousands("", whole, tenth);
    UngroupedWhole(whole, tenth);
  }

  /** Without a fourth digit, no separator is written. */
  lemma UngroupedWhole(whole: string, tenth: string)
    requires Requests.CanonicalDigits(whole) && |whole| <= 3
    requires |tenth| == 1 && Requests.IsDigit(tenth[0])
    ensures WithGroupedThousands("", whole, tenth) == whole + "." + tenth
  {
    DigitsHaveNoSeparator(whole);
  }

  /** Large means are written with thousands separators: a single score of
      1000 shows as "1,000.0", one of -1000 as "-1,000.0". */
  lemma ThousandsExamples()
    ensures TenthsText(RoundedTenths(1000, 1)) == "1,000.0"
    ensures TenthsText(RoundedTenths(-1000, 1)) == "-1,000.0"
  {
    assert RoundedTenths(1000, 1) == 10000;
    assert RoundedTenths(-1000, 1) == -10000;
    OneThousand();
    assert Requests.DecimalText(0) == "0";
  }

  lemma OneThousand()
    ensures Requests.DecimalText(1000) == "1000"
    ensures Grouped("1000") == "1,000"
  {
    assert Requests.DecimalText(10) == "10";
    assert Requests.DecimalText(100) == "100";
    Grouped1000();
  }

  lemma Grouped1000()
    ensures Grouped("1000") == "1,000"
  {
    assert "1000"[..1] == "1" && "1000"[1..] == "000";
  }

  /** Separators fall every three digits from the right. */
  lemma MillionsExample()
    ensures TenthsText(12345678) == "1,234,567.8"
  {
    assert Requests.DecimalText(8) == "8";
    Digits1234567();
    assert TenthsText(12345678) == WithGroupedThousands("", "1234567", "8");
    Grouped1234567();
    assert WithGroupedThousands("", "1234567", "8") == "" + "1,234,567" + "." + "8";
  }

  lemma Grouped1234567()
    ensures Grouped("1234567") == "1,234,567"
  {
    Grouped1234();
    assert "1234567"[..4] == "1234" && "1234567"[4..] == "567";
  }

  lemma Grouped1234()
    ensures Grouped("1234") == "1,234"
  {
    assert "1234"[..1] == "1" && "1234"[1..] == "234";
  }

  lemma Digits1234567()
    ensures Requests.DecimalText(1234567) == "1234567"
  {
    assert Requests.DecimalText(12) == "12";
    assert Requests.DecimalText(123) == "123";
    assert Requests.DecimalText(1234) == "1234";
    assert Requests.DecimalText(12345) == "12345";
    assert Requests.DecimalText(123456) == "123456";
  }
}
