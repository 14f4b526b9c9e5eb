/** The display helpers of the utility library: the calorie colour buckets,
    the "time ago" wording, and number and calorie formatting. */
module Display {
  import opened Text
  import ArrayUtils

  /** The bucket a calorie amount falls in: under 200, under 400, under 600,
      and the rest. */
  function CalorieBucket(calories: real): (b: nat)
    ensures b <= 3
    ensures b == 0 <==> calories < 200.0
    ensures b == 1 <==> 200.0 <= calories < 400.0
    ensures b == 2 <==> 400.0 <= calories < 600.0
    ensures b == 3 <==> 600.0 <= calories
  {
    if calories < 200.0 then 0
    else if calories < 400.0 then 1
    else if calories < 600.0 then 2
    else 3
  }

  /** More calories never fall in a lower bucket. */
  lemma CalorieBucketMonotonic(a: real, b: real)
    requires a <= b
    ensures CalorieBucket(a) <= CalorieBucket(b)
  {
  }

  /** `getCalorieColor(calories)`: the text colour class. */
  function CalorieColor(calories: real): (c: string)
    ensures calories < 200.0 ==> c == "text-green-600"
    ensures 200.0 <= calories < 400.0 ==> c == "text-yellow-600"
    ensures 400.0 <= calories < 600.0 ==> c == "text-orange-600"
    ensures 600.0 <= calories ==> c == "text-red-600"
  {
    ["text-green-600", "text-yellow-600", "text-orange-600", "text-red-600"][CalorieBucket(calories)]
  }

  /** `getCalorieBgColor(calories)`: the background colour class. */
  function CalorieBgColor(calories: real): (c: string)
    ensures calories < 200.0 ==> c == "bg-green-100 dark:bg-green-900/20"
    ensures 200.0 <= calories < 400.0 ==> c == "bg-yellow-100 dark:bg-yellow-900/20"
    ensures 400.0 <= calories < 600.0 ==> c == "bg-orange-100 dark:bg-orange-900/20"
    ensures 600.0 <= calories ==> c == "bg-red-100 dark:bg-red-900/20"
  {
    [ "bg-green-100 dark:bg-green-900/20", "bg-yellow-100 dark:bg-yellow-900/20",
      "bg-orange-100 dark:bg-orange-900/20", "bg-red-100 dark:bg-red-900/20"][CalorieBucket(calories)]
  }

  /** The text colour and the background colour always name the same bucket:
      two amounts share one exactly when they share the other. */
  lemma ColorsAgree(a: real, b: real)
    ensures CalorieColor(a) == CalorieColor(b) <==> CalorieBgColor(a) == CalorieBgColor(b)
    ensures CalorieColor(a) == CalorieColor(b) <==> CalorieBucket(a) == CalorieBucket(b)
  {
    var texts := ["text-green-600", "text-yellow-600", "text-orange-600", "text-red-600"];
    var bgs := [ "bg-green-100 dark:bg-green-900/20", "bg-yellow-100 dark:bg-yellow-900/20",
      "bg-orange-100 dark:bg-orange-900/20", "bg-red-100 dark:bg-red-900/20"];
    assert forall i, j :: 0 <= i < j < 4 ==> texts[i] != texts[j] by {
      assert texts[0][5] != texts[1][5] && texts[0][5] != texts[2][5] && texts[0][5] != texts[3][5];
      assert texts[1][5] != texts[2][5] && texts[1][5] != texts[3][5] && texts[2][5] != texts[3][5];
    }
    assert forall i, j :: 0 <= i < j < 4 ==> bgs[i] != bgs[j] by {
      assert bgs[0][3] != bgs[1][3] && bgs[0][3] != bgs[2][3] && bgs[0][3] != bgs[3][3];
      assert bgs[1][3] != bgs[2][3] && bgs[1][3] != bgs[3][3] && bgs[2][3] != bgs[3][3];
    }
  }

  /** How long ago something happened, as `timeAgo` words it. */
  datatype Elapsed = JustNow | Minutes(n: nat) | Hours(n: nat) | Days(n: nat) | Older

  /** The wording `timeAgo` picks for an elapsed number of whole seconds. */
  function ElapsedBucket(seconds: int): (e: Elapsed)
    ensures e.JustNow? <==> seconds < 60
    ensures e.Minutes? <==> 60 <= seconds < 3600
    ensures e.Hours? <==> 3600 <= seconds < 86400
    ensures e.Days? <==> 86400 <= seconds < 2592000
    ensures e.Older? <==> 2592000 <= seconds
    ensures e.Minutes? ==> 1 <= e.n <= 59 && e.n * 60 <= seconds < (e.n + 1) * 60
    ensures e.Hours? ==> 1 <= e.n <= 23 && e.n * 3600 <= seconds < (e.n + 1) * 3600
    ensures e.Days? ==> 1 <= e.n <= 29 && e.n * 86400 <= seconds < (e.n + 1) * 86400
  {
    if seconds < 60 then JustNow
    else if seconds < 3600 then Minutes(seconds / 60)
    else if seconds < 86400 then Hours(seconds / 3600)
    else if seconds < 2592000 then Days(seconds / 86400)
    else Older
  }

  /** `timeAgo(date)` with the current instant and the date as milliseconds
      since the epoch; `formattedDate` is what `formatDate(date)` renders. */
  function TimeAgo(nowMs: int, pastMs: int, formattedDate: string): (r: string)
    ensures var secs := (nowMs - pastMs) / 1000;
      && (secs < 60 ==> r == "just now")
      && (60 <= secs < 3600 ==> r == IntToString(secs / 60) + "m ago")
      && (3600 <= secs < 86400 ==> r == IntToString(secs / 3600) + "h ago")
      && (86400 <= secs < 2592000 ==> r == IntToString(secs / 86400) + "d ago")
      && (2592000 <= secs ==> r == formattedDate)
  {
    match ElapsedBucket((nowMs - pastMs) / 1000)
    case JustNow => "just now"
    case Minutes(n) => IntToString(n) + "m ago"
    case Hours(n) => IntToString(n) + "h ago"
    case Days(n) => IntToString(n) + "d ago"
    case Older => formattedDate
  }

  /** The decimal digits cut into groups of three from the right: the first
      group holds one to three digits. */
  function DigitGroups(d: string): (g: seq<string>)
    requires |d| >= 1
    ensures |g| >= 1 && 1 <= |g[0]| <= 3
    ensures forall k :: 1 <= k < |g| ==> |g[k]| == 3
    ensures ArrayUtils.Flatten(g) == d
  {
    if |d| <= 3 then
      assert ArrayUtils.Flatten([d]) == ArrayUtils.Flatten([]) + d;
      [d]
    else
      var g := DigitGroups(d[..|d| - 3]) + [d[|d| - 3..]];
      assert g[..|g| - 1] == DigitGroups(d[..|d| - 3]);
      assert d == d[..|d| - 3] + d[|d| - 3..];
      g
  }

  /** `formatNumber(num)` (`Intl.NumberFormat("en-US")`) on an integer:
      a minus sign when negative, then the digits grouped by commas. */
  function FormatNumber(n: int): (r: string)
    ensures |r| >= 1 && (r[0] == '-' <==> n < 0)
    ensures n >= 0 ==> IsDigit(r[0])
  {
    var m: nat := if n < 0 then -n else n;
    GroupedDigitsReadBack(m);
    (if n < 0 then "-" else "") + Join(DigitGroups(NatToDecimal(m)), ',')
  }

  /** Reading a formatted number back: drop the sign and the commas. */
  function ParseFormatted(s: string): int
    requires forall i :: 0 <= i < |s| ==> IsDigit(s[i]) || s[i] == ',' || (i == 0 && s[i] == '-')
  {
    if s != [] && s[0] == '-' then -(DigitsValue(s[1..]) as int) else DigitsValue(s)
  }

  /** The value of the digits of `s`, commas skipped. */
  function DigitsValue(s: string): nat
    requires forall i :: 0 <= i < |s| ==> IsDigit(s[i]) || s[i] == ','
  {
    var pieces := Split(s, ',');
    SplitPiecesHaveDigits(s);
    DecimalValue(ArrayUtils.Flatten(pieces))
  }

  /** Splitting a string of digits and commas on the commas leaves digits. */
  lemma {:induction false} SplitPiecesHaveDigits(s: string)
    requires forall i :: 0 <= i < |s| ==> IsDigit(s[i]) || s[i] == ','
    ensures forall i :: 0 <= i < |ArrayUtils.Flatten(Split(s, ','))| ==> IsDigit(ArrayUtils.Flatten(Split(s, ','))[i])
    decreases |s|
  {
    var i := IndexOf(s, ',');
    if i == |s| {
      assert ArrayUtils.Flatten([s]) == ArrayUtils.Flatten([]) + s;
    } else {
      var rest := Split(s[i + 1..], ',');
      SplitPiecesHaveDigits(s[i + 1..]);
      FlattenCons(s[..i], rest);
    }
  }

  /** Flattening a list whose head is `x`. */
  lemma {:induction false} FlattenCons(x: string, rest: seq<string>)
    ensures ArrayUtils.Flatten([x] + rest) == x + ArrayUtils.Flatten(rest)
    decreases |rest|
  {
    if rest != [] {
      var pre := rest[..|rest| - 1];
      assert ([x] + rest)[..|rest|] == [x] + pre;
      FlattenCons(x, pre);
    }
  }

  /** The grouped digits of a natural number hold digits and commas only,
      start with a digit, and read back as the number. */
  lemma GroupedDigitsReadBack(m: nat)
    ensures var body := Join(DigitGroups(NatToDecimal(m)), ',');
      && |body| >= 1 && IsDigit(body[0])
      && (forall i :: 0 <= i < |body| ==> IsDigit(body[i]) || body[i] == ',')
      && DigitsValue(body) == m
  {
    var digits := NatToDecimal(m);
    var groups := DigitGroups(digits);
    var body := Join(groups, ',');
    forall k | 0 <= k < |groups|
      ensures forall i :: 0 <= i < |groups[k]| ==> IsDigit(groups[k][i])
    {
      GroupOfDigits(digits, groups, k);
    }
    assert forall k :: 0 <= k < |groups| ==> ',' !in groups[k];
    SplitJoin(groups, ',');
    JoinOfDigits(groups);
    JoinFirstChar(groups);
    DecimalRoundTrip(m);
  }

  /** A formatted integer reads back as the same integer. */
  lemma FormatNumberRoundTrip(n: int)
    ensures forall i :: 0 <= i < |FormatNumber(n)| ==>
      IsDigit(FormatNumber(n)[i]) || FormatNumber(n)[i] == ',' || (i == 0 && FormatNumber(n)[i] == '-')
    ensures ParseFormatted(FormatNumber(n)) == n
  {
    var m: nat := if n < 0 then -n else n;
    var body := Join(DigitGroups(NatToDecimal(m)), ',');
    GroupedDigitsReadBack(m);
    var f := FormatNumber(n);
    if n < 0 {
      assert f == "-" + body;
      forall i | 0 <= i < |f| ensures IsDigit(f[i]) || f[i] == ',' || (i == 0 && f[i] == '-') {
        if i > 0 { assert f[i] == body[i - 1]; }
      }
      assert f[1..] == body;
    } else {
      assert f == body;
    }
  }

  /** `body` is the decimal digits of `m` cut by commas into groups of
      three from the right, as the en-US format writes them: split on the
      commas, the first piece holds one to three digits, every later piece
      exactly three, and together they are the digits of `m`. */
  predicate IsGroupedDecimal(body: string, m: nat) {
    var g := Split(body, ',');
    && 1 <= |g[0]| <= 3
    && (forall k :: 1 <= k < |g| ==> |g[k]| == 3)
    && ArrayUtils.Flatten(g) == NatToDecimal(m)
  }

  /** After the sign, a formatted integer is its magnitude's digits grouped
      in threes by commas. */
  lemma FormatNumberGroups(n: int)
    ensures var r := FormatNumber(n);
      IsGroupedDecimal(if n < 0 then r[1..] else r, if n < 0 then -n else n)
  {
    var m: nat := if n < 0 then -n else n;
    var digits := NatToDecimal(m);
    var groups := DigitGroups(digits);
    var body := Join(groups, ',');
    forall k | 0 <= k < |groups| ensures ',' !in groups[k] {
      GroupOfDigits(digits, groups, k);
    }
    SplitJoin(groups, ',');
    var r := FormatNumber(n);
    if n < 0 {
      assert r == "-" + body;
      assert r[1..] == body;
    } else {
      assert r == body;
    }
  }

  /** What precedes " cal" is the rounded amount grouped in threes. */
  lemma FormatCaloriesGroups(calories: real)
    ensures var r := FormatCalories(calories);
      var n := JsRound(calories);
      && (r[0] == '-' <==> n < 0)
      && IsGroupedDecimal(if n < 0 then r[1..|r| - 4] else r[..|r| - 4], if n < 0 then -n else n)
  {
    var n := JsRound(calories);
    var s := FormatNumber(n);
    var r := FormatCalories(calories);
    FormatNumberGroups(n);
    assert r[..|r| - 4] == s;
    if n < 0 {
      assert r[1..|r| - 4] == s[1..];
    }
  }

  /** Each digit group consists of digits. */
  lemma GroupOfDigits(digits: string, groups: seq<string>, k: nat)
    requires |digits| >= 1 && (forall i :: 0 <= i < |digits| ==> IsDigit(digits[i]))
    requires groups == DigitGroups(digits) && k < |groups|
    ensures forall i :: 0 <= i < |groups[k]| ==> IsDigit(groups[k][i])
    decreases |digits|
  {
    if |digits| > 3 {
      var pre := digits[..|digits| - 3];
      if k < |groups| - 1 {
        assert groups[k] == DigitGroups(pre)[k];
        GroupOfDigits(pre, DigitGroups(pre), k);
      }
    }
  }

  /** Joining groups of digits with commas gives digits and commas. */
  lemma {:induction false} JoinOfDigits(groups: seq<string>)
    requires forall k, i :: 0 <= k < |groups| && 0 <= i < |groups[k]| ==> IsDigit(groups[k][i])
    ensures forall i :: 0 <= i < |Join(groups, ',')| ==> IsDigit(Join(groups, ',')[i]) || Join(groups, ',')[i] == ','
  {
    if |groups| > 1 {
      JoinOfDigits(groups[1..]);
    }
  }

  /** A comma-joined list of digit groups starts with a digit. */
  lemma JoinFirstChar(groups: seq<string>)
    requires |groups| >= 1 && |groups[0]| >= 1 && IsDigit(groups[0][0])
    ensures Join(groups, ',')[0] == groups[0][0]
  {
  }

  /** `Math.round(x)`: the nearest integer, halves rounded up. */
  function JsRound(x: real): (n: int)
    ensures x - 0.5 < n as real <= x + 0.5
  {
    (x + 0.5).Floor
  }

  /** `formatCalories(calories)`: the rounded amount, formatted, then " cal". */
  function FormatCalories(calories: real): (r: string)
    ensures |r| >= 5 && r[|r| - 4..] == " cal"
  {
    FormatNumber(JsRound(calories)) + " cal"
  }

  /** What precedes " cal" is a formatted number that reads back as the
      rounded amount. */
  lemma FormatCaloriesReadsBack(calories: real)
    ensures var r := FormatCalories(calories);
      && (forall i :: 0 <= i < |r| - 4 ==> IsDigit(r[i]) || r[i] == ',' || (i == 0 && r[i] == '-'))
      && ParseFormatted(r[..|r| - 4]) == JsRound(calories)
  {
    var s := FormatNumber(JsRound(calories));
    FormatNumberRoundTrip(JsRound(calories));
    assert FormatCalories(calories)[..|s|] == s;
  }
}

/** The worked examples of the utility library's own test suite, for
    `formatNumber`, `formatCalories` and `capitalize`. */
module DisplayExamples {
  import opened Text
  import opened Display
  import opened StringUtils

  lemma Digits1234()
    ensures NatToDecimal(1234) == "1234"
  {
    assert NatToDecimal(1) == "1";
    assert NatToDecimal(12) == NatToDecimal(1) + [DigitChar(2)];
    assert NatToDecimal(123) == NatToDecimal(12) + [DigitChar(3)];
    assert NatToDecimal(1234) == NatToDecimal(123) + [DigitChar(4)];
  }

  lemma Digits1234567()
    ensures NatToDecimal(1234567) == "1234567"
  {
    Digits1234();
    assert NatToDecimal(12345) == NatToDecimal(1234) + [DigitChar(5)];
    assert NatToDecimal(123456) == NatToDecimal(12345) + [DigitChar(6)];
    assert NatToDecimal(1234567) == NatToDecimal(123456) + [DigitChar(7)];
  }

  lemma Digits100()
    ensures NatToDecimal(100) == "100" && NatToDecimal(101) == "101" && NatToDecimal(1000) == "1000"
  {
    assert NatToDecimal(1) == "1";
    assert NatToDecimal(10) == NatToDecimal(1) + [DigitChar(0)];
    assert NatToDecimal(100) == NatToDecimal(10) + [DigitChar(0)];
    assert NatToDecimal(101) == NatToDecimal(10) + [DigitChar(1)];
    assert NatToDecimal(1000) == NatToDecimal(100) + [DigitChar(0)];
  }

  lemma Groups1234()
    ensures DigitGroups("1234") == ["1", "234"]
  {
    assert "1234"[..1] == "1";
    assert "1234"[1..] == "234";
    assert DigitGroups("1") == ["1"];
  }

  /** `formatNumber(1000)`. */
  lemma FormatNumber1000()
    ensures FormatNumber(1000) == "1,000"
  {
    Digits100();
    assert "1000"[..1] == "1" && "1000"[1..] == "000";
    assert DigitGroups("1") == ["1"];
    assert DigitGroups("1000") == ["1", "000"];
    assert Join(["1", "000"], ',') == "1" + [','] + Join(["000"], ',');
  }

  lemma Groups1234567()
    ensures DigitGroups("1234567") == ["1", "234", "567"]
  {
    Groups1234();
    assert "1234567"[..4] == "1234" && "1234567"[4..] == "567";
  }

  /** `formatNumber(1234567)`. */
  lemma FormatNumber1234567()
    ensures FormatNumber(1234567) == "1,234,567"
  {
    Digits1234567();
    Groups1234567();
    var g := ["1", "234", "567"];
    assert g[1..] == ["234", "567"] && ["234", "567"][1..] == ["567"];
    assert Join(["234", "567"], ',') == "234" + [','] + Join(["567"], ',');
    assert Join(g, ',') == "1" + [','] + Join(["234", "567"], ',');
  }

  /** `formatNumber(0)`. */
  lemma FormatNumber0()
    ensures FormatNumber(0) == "0"
  {
    assert NatToDecimal(0) == "0";
    assert DigitGroups("0") == ["0"];
  }

  /** `formatCalories(100)`. */
  lemma FormatCalories100()
    ensures FormatCalories(100.0) == "100 cal"
  {
    assert JsRound(100.0) == 100;
    Digits100();
    assert DigitGroups("100") == ["100"];
  }

  /** `formatCalories(1234)`. */
  lemma FormatCalories1234()
    ensures FormatCalories(1234.0) == "1,234 cal"
  {
    assert JsRound(1234.0) == 1234;
    Digits1234();
    Groups1234();
    assert Join(["1", "234"], ',') == "1" + [','] + Join(["234"], ',');
  }

  /** `formatCalories(0)`. */
  lemma FormatCalories0()
    ensures FormatCalories(0.0) == "0 cal"
  {
    assert JsRound(0.0) == 0;
    assert NatToDecimal(0) == "0";
    assert DigitGroups("0") == ["0"];
    assert FormatNumber(0) == "0";
    assert FormatCalories(0.0) == FormatNumber(0) + " cal";
  }

  /** `formatCalories` rounds to the nearest whole calorie: 100.7 and 100.3. */
  lemma FormatCaloriesRounds()
    ensures FormatCalories(100.7) == "101 cal"
    ensures FormatCalories(100.3) == "100 cal"
  {
    assert JsRound(100.7) == 101 && JsRound(100.3) == 100;
    Digits100();
    assert DigitGroups("101") == ["101"];
    assert DigitGroups("100") == ["100"];
  }

  /** `capitalize("hello")`, `capitalize("WORLD")` and `capitalize("tEsT")`. */
  lemma CapitalizeExamples()
    ensures Capitalize("hello") == "Hello"
    ensures Capitalize("WORLD") == "World"
    ensures Capitalize("tEsT") == "Test"
  {
  }
}
