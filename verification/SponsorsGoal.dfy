/**
 The sponsors card: printing the goal figures and deciding from the committed card whether they changed
 (scripts/update_sponsors_goal.py:11, 56-75). The wording and layout around the figures are parameters, since
 edits to them must not count as a change; `\d` is an ASCII digit here.
 */
module SponsorsGoal {
  import opened Text

  datatype Goal = Goal(percentComplete: int, targetValue: int)

  datatype Figures = Figures(percent: nat, target: int)

  function FiguresOf(goal: Goal): (f: Figures)
    ensures 0 <= goal.percentComplete <= 100 ==> f.percent == goal.percentComplete
    ensures goal.percentComplete < 0 ==> f.percent == 0
    ensures goal.percentComplete > 100 ==> f.percent == 100
    ensures f.target == goal.targetValue
  {
    var p := if goal.percentComplete > 100 then 100 else goal.percentComplete;
    Figures(if p < 0 then 0 else p, goal.targetValue)
  }

  // ----- printing

  predicate IsDigit(c: char) { '0' <= c <= '9' }

  function DigitChar(d: nat): (c: char)
    requires d < 10
    ensures IsDigit(c) && DigitValue(c) == d
  {
    '0' + d as char
  }

  function DigitValue(c: char): (d: nat)
    requires IsDigit(c)
    ensures d < 10
  {
    (c - '0') as int
  }

  predicate AllDigits(s: string) {
    forall c :: c in s ==> IsDigit(c)
  }

  function Decimal(n: nat): (s: string)
    ensures s != "" && AllDigits(s)
  {
    if n < 10 then [DigitChar(n)] else Decimal(n / 10) + [DigitChar(n % 10)]
  }

  function ThreeDigits(n: nat): (s: string)
    requires n < 1000
    ensures |s| == 3 && AllDigits(s)
  {
    [DigitChar(n / 100), DigitChar(n / 10 % 10), DigitChar(n % 10)]
  }

  predicate DigitsAndCommas(s: string) {
    forall c :: c in s ==> IsDigit(c) || c == ','
  }

  /** The `,` format of a number that is not negative. */
  function Grouped(n: nat): (s: string)
    ensures s != "" && DigitsAndCommas(s)
  {
    if n < 1000 then Decimal(n) else Grouped(n / 1000) + "," + ThreeDigits(n % 1000)
  }

  function Signed(n: int): string {
    if n < 0 then "-" + Grouped(-n) else Grouped(n)
  }

  const OF := "% of $"
  const PER := " per month"

  function Label(f: Figures): string {
    Decimal(f.percent) + OF + Signed(f.target) + PER
  }

  /** The text of the card around the two labels and the width of the bar. */
  datatype Layout = Layout(before: string, between: string, middle: string, after: string) {
    /** No percent sign that could be taken for the figures, and no digit right before a label. */
    predicate Plain() {
      && '%' !in before && '%' !in between && '%' !in middle && '%' !in after
      && before != "" && !IsDigit(before[|before| - 1])
      && between != "" && !IsDigit(between[|between| - 1])
    }
  }

  /** The width 4.5 times the percent, to one decimal. */
  function Width(percent: nat): string {
    Decimal(45 * percent / 10) + "." + [DigitChar(45 * percent % 10)]
  }

  function Render(layout: Layout, goal: Goal): string {
    var f := FiguresOf(goal);
    layout.before + Label(f) + layout.between + Label(f) + layout.middle + Width(f.percent) + layout.after
  }

  // ----- reading

  function Value(s: string): nat
    requires AllDigits(s)
  {
    if s == "" then 0 else 10 * Value(s[..|s| - 1]) + DigitValue(s[|s| - 1])
  }

  function WithoutCommas(s: string): (r: string)
    ensures DigitsAndCommas(s) ==> AllDigits(r)
  {
    if s == "" then ""
    else if s[0] == ',' then WithoutCommas(s[1..])
    else [s[0]] + WithoutCommas(s[1..])
  }

  function Run(s: string, commas: bool): (n: nat)
    ensures n <= |s|
    ensures forall i :: 0 <= i < n ==> IsDigit(s[i]) || (commas && s[i] == ',')
    ensures n < |s| ==> !(IsDigit(s[n]) || (commas && s[n] == ','))
  {
    if s != "" && (IsDigit(s[0]) || (commas && s[0] == ',')) then 1 + Run(s[1..], commas) else 0
  }

  /** LABEL at the start of the text: its two groups. */
  function LabelAt(s: string): (m: Option<(string, string)>)
    ensures m.Some? ==> AllDigits(m.value.0) && DigitsAndCommas(m.value.1)
  {
    var n := Run(s, false);
    if n == 0 || !(OF <= s[n..]) then None
    else
      var rest := s[n + |OF|..];
      var k := Run(rest, true);
      if k == 0 || !(PER <= rest[k..]) then None else Some((s[..n], rest[..k]))
  }

  /** LABEL.search */
  function Search(s: string): (m: Option<(string, string)>)
    ensures m.Some? ==> AllDigits(m.value.0) && DigitsAndCommas(m.value.1)
  {
    if LabelAt(s).Some? then LabelAt(s) else if s == "" then None else Search(s[1..])
  }

  /** None stands for the ValueError of a target without digits. */
  function CardIsCurrent(card: string, goal: Goal): Option<bool> {
    var m := Search(card);
    if m.None? then Some(false)
    else if WithoutCommas(m.value.1) == "" then None
    else
      var f := FiguresOf(goal);
      Some(Value(m.value.0) == f.percent && Value(WithoutCommas(m.value.1)) == f.target)
  }

  // ----- printing and reading are inverse

  lemma ValueAppend(s: string, d: nat)
    requires AllDigits(s) && d < 10
    ensures AllDigits(s + [DigitChar(d)]) && Value(s + [DigitChar(d)]) == 10 * Value(s) + d
  {
    assert (s + [DigitChar(d)])[..|s|] == s;
  }

  lemma {:induction false} DecimalReadsBack(n: nat)
    ensures Value(Decimal(n)) == n
  {
    if n < 10 {
      ValueAppend("", n);
      assert "" + [DigitChar(n)] == [DigitChar(n)];
    } else {
      DecimalReadsBack(n / 10);
      ValueAppend(Decimal(n / 10), n % 10);
    }
  }

  lemma ValueThree(s: string, n: nat)
    requires AllDigits(s) && n < 1000
    ensures AllDigits(s + ThreeDigits(n)) && Value(s + ThreeDigits(n)) == 1000 * Value(s) + n
  {
    var a, b, c := n / 100, n / 10 % 10, n % 10;
    ValueAppend(s, a);
    ValueAppend(s + [DigitChar(a)], b);
    ValueAppend(s + [DigitChar(a)] + [DigitChar(b)], c);
    assert s + ThreeDigits(n) == s + [DigitChar(a)] + [DigitChar(b)] + [DigitChar(c)];
    assert n == 100 * a + 10 * b + c;
  }

  lemma CommasHead(s: string)
    requires s != ""
    ensures WithoutCommas(s) == (if s[0] == ',' then "" else [s[0]]) + WithoutCommas(s[1..])
  {
  }

  lemma CommasAppendHead(a: string, b: string)
    requires a != ""
    ensures (a + b)[1..] == a[1..] + b
    ensures WithoutCommas(a + b) == (if a[0] == ',' then "" else [a[0]]) + WithoutCommas(a[1..] + b)
  {
    hide WithoutCommas;
    assert (a + b)[1..] == a[1..] + b;
    CommasHead(a + b);
  }

  lemma Associate(a: string, b: string, c: string)
    ensures a + (b + c) == (a + b) + c
  {
  }

  lemma {:induction false} CommasAppend(a: string, b: string)
    ensures WithoutCommas(a + b) == WithoutCommas(a) + WithoutCommas(b)
  {
    if a == "" {
      assert a + b == b;
    } else {
      hide *;
      CommasAppendHead(a, b);
      CommasAppend(a[1..], b);
      CommasHead(a);
      Associate(if a[0] == ',' then "" else [a[0]], WithoutCommas(a[1..]), WithoutCommas(b));
    }
  }

  lemma {:induction false} NoCommas(s: string)
    requires AllDigits(s)
    ensures WithoutCommas(s) == s
  {
    if s != "" {
      assert s[0] in s;
      NoCommas(s[1..]);
    }
  }

  /** Grouping by commas and dropping the commas are inverse. */
  lemma {:induction false} GroupedReadsBack(n: nat)
    ensures AllDigits(WithoutCommas(Grouped(n))) && WithoutCommas(Grouped(n)) != ""
    ensures Value(WithoutCommas(Grouped(n))) == n
  {
    if n < 1000 {
      NoCommas(Decimal(n));
      DecimalReadsBack(n);
    } else {
      GroupedReadsBack(n / 1000);
      var head, tail := Grouped(n / 1000), ThreeDigits(n % 1000);
      CommasAppend(head + ",", tail);
      CommasAppend(head, ",");
      NoCommas(tail);
      assert WithoutCommas(",") == "";
      assert WithoutCommas(head) + "" == WithoutCommas(head);
      ValueThree(WithoutCommas(head), n % 1000);
    }
  }

  // ----- finding the label

  lemma {:induction false} RunOver(s: string, rest: string, commas: bool)
    requires forall c :: c in s ==> IsDigit(c) || (commas && c == ',')
    requires rest != "" && !(IsDigit(rest[0]) || (commas && rest[0] == ','))
    ensures Run(s + rest, commas) == |s|
  {
    if s == "" {
      assert s + rest == rest;
    } else {
      assert s[0] in s;
      RunOver(s[1..], rest, commas);
      assert (s + rest)[1..] == s[1..] + rest;
    }
  }

  lemma LabelIsFound(percent: string, target: string, rest: string)
    requires percent != "" && AllDigits(percent) && target != "" && DigitsAndCommas(target)
    ensures Search(percent + (OF + (target + (PER + rest)))) == Some((percent, target))
  {
    LabelReads(percent, target, rest);
    hide LabelAt;
    assert percent + (OF + (target + (PER + rest))) == percent + ("% of $" + (target + (" per month" + rest)));
  }

  /** Text without a percent sign that does not end in a digit holds no part of a label. */
  lemma {:induction false} SkipPlain(s: string, rest: string)
    requires '%' !in s && (s == "" || !IsDigit(s[|s| - 1]))
    ensures Search(s + rest) == Search(rest)
  {
    if s == "" {
      assert s + rest == rest;
    } else {
      var whole := s + rest;
      PlainStart(s, rest);
      assert whole[1..] == s[1..] + rest;
      SkipPlain(s[1..], rest);
    }
  }

  lemma PercentFirst(s: string, n: nat)
    requires n <= |s|
    ensures OF <= s[n..] ==> '%' in s && n < |s| && s[n] == '%'
  {
    assert OF[0] == '%';
    assert n < |s| ==> s[n..][0] == s[n];
  }

  lemma PlainStart(s: string, rest: string)
    requires s != "" && '%' !in s && !IsDigit(s[|s| - 1])
    ensures LabelAt(s + rest).None?
  {
    var whole := s + rest;
    var n := Run(whole, false);
    assert whole[|s| - 1] == s[|s| - 1];
    assert n < |s|;
    assert whole[n] == s[n] && s[n] in s;
    PercentFirst(whole, n);
  }

  lemma LabelParts(f: Figures, rest: string)
    ensures Label(f) + rest == Decimal(f.percent) + (OF + (Signed(f.target) + (PER + rest)))
  {
  }

  function Behind(layout: Layout, f: Figures): string {
    layout.between + Label(f) + layout.middle + Width(f.percent) + layout.after
  }

  lemma CardParts(layout: Layout, goal: Goal)
    ensures var f := FiguresOf(goal);
      Render(layout, goal) == layout.before + (Label(f) + Behind(layout, f))
  {
  }

  /** The search finds the printed figures. */
  lemma FiguresAreFound(layout: Layout, goal: Goal)
    requires layout.Plain() && goal.targetValue >= 0
    ensures Search(Render(layout, goal)) == Some((Decimal(FiguresOf(goal).percent), Grouped(goal.targetValue)))
  {
    var f := FiguresOf(goal);
    var rest := Behind(layout, f);
    CardParts(layout, goal);
    SkipPlain(layout.before, Label(f) + rest);
    LabelParts(f, rest);
    LabelIsFound(Decimal(f.percent), Grouped(f.target), rest);
  }

  /**
   The card rendered for one goal is current for another exactly when clamped percent and target agree, however
   the two cards are worded; in particular a freshly rendered card is current.
   */
  lemma CurrentIff(layout: Layout, shown: Goal, goal: Goal)
    requires layout.Plain() && shown.targetValue >= 0
    ensures CardIsCurrent(Render(layout, shown), goal) == Some(FiguresOf(shown) == FiguresOf(goal))
  {
    FiguresAreFound(layout, shown);
    DecimalReadsBack(FiguresOf(shown).percent);
    GroupedReadsBack(shown.targetValue);
  }

  // ----- negative targets

  lemma MinusStart(percent: string, rest: string)
    requires AllDigits(percent)
    ensures LabelAt(percent + (OF + ("-" + rest))).None?
  {
    var tail := OF + ("-" + rest);
    var s := percent + tail;
    RunOver(percent, tail, false);
    assert s[|percent|..] == tail;
    assert s[|percent| + |OF|..] == "-" + rest;
    assert Run("-" + rest, true) == 0;
  }

  lemma {:induction false} MinusIsNoLabel(percent: string, rest: string)
    requires AllDigits(percent)
    ensures Search(percent + (OF + ("-" + rest))) == Search(OF + ("-" + rest))
  {
    hide LabelAt;
    var tail := OF + ("-" + rest);
    if percent == "" {
      assert percent + tail == tail;
    } else {
      MinusStart(percent, rest);
      MinusIsNoLabel(percent[1..], rest);
      assert (percent + tail)[1..] == percent[1..] + tail;
    }
  }

  lemma {:induction false} NoLabelWithoutPercent(s: string)
    requires '%' !in s
    ensures Search(s).None?
  {
    var n := Run(s, false);
    PercentFirst(s, n);
    if s != "" {
      NoLabelWithoutPercent(s[1..]);
    }
  }

  const OF_TAIL := " of $-"

  /** What is left of a negative label behind its percent sign holds no label. */
  lemma SkipBehindPercent(digits: string, rest: string)
    requires DigitsAndCommas(digits)
    ensures Search(OF + ("-" + (digits + (PER + rest)))) == Search(rest)
  {
    var tail := OF_TAIL + digits + PER;
    var s := OF + ("-" + (digits + (PER + rest)));
    assert OF + "-" == "%" + OF_TAIL;
    assert s == (OF + "-") + (digits + (PER + rest));
    assert s == "%" + (tail + rest);
    assert Run(s, false) == 0;
    assert s[1..] == tail + rest;
    assert tail[|tail| - 1] == PER[|PER| - 1] == 'h';
    assert '%' !in OF_TAIL && '%' !in PER && '%' !in digits;
    SkipPlain(tail, rest);
  }

  lemma NegativeLabelIsSkipped(f: Figures, rest: string)
    requires f.target < 0
    ensures Search(Label(f) + rest) == Search(rest)
  {
    hide Search;
    var digits := Grouped(-f.target);
    LabelParts(f, rest);
    assert Signed(f.target) + (PER + rest) == "-" + (digits + (PER + rest));
    MinusIsNoLabel(Decimal(f.percent), digits + (PER + rest));
    SkipBehindPercent(digits, rest);
  }

  lemma EndParts(layout: Layout, f: Figures)
    ensures Behind(layout, f) == layout.between + (Label(f) + (layout.middle + Width(f.percent) + layout.after))
    ensures layout.Plain() ==> '%' !in layout.middle + Width(f.percent) + layout.after
  {
    hide Label;
    assert AllDigits(Decimal(45 * f.percent / 10));
    assert '%' !in Width(f.percent);
  }

  /** A card with a negative target is current for no goal, so it would be rewritten on every run. */
  lemma NegativeIsNeverCurrent(layout: Layout, shown: Goal, goal: Goal)
    requires layout.Plain() && shown.targetValue < 0
    ensures CardIsCurrent(Render(layout, shown), goal) == Some(false)
  {
    hide Search, Render, Label, Behind, Width;
    var f := FiguresOf(shown);
    var end := layout.middle + Width(f.percent) + layout.after;
    CardParts(layout, shown);
    EndParts(layout, f);
    SkipPlain(layout.before, Label(f) + Behind(layout, f));
    NegativeLabelIsSkipped(f, Behind(layout, f));
    SkipPlain(layout.between, Label(f) + end);
    NegativeLabelIsSkipped(f, end);
    NoLabelWithoutPercent(end);
  }

  /** The promise to rewrite the card only when the figures change holds exactly for targets that are not negative. */
  lemma FreshCardIsCurrentIff(layout: Layout, goal: Goal)
    requires layout.Plain()
    ensures CardIsCurrent(Render(layout, goal), goal) == Some(true) <==> goal.targetValue >= 0
  {
    if goal.targetValue >= 0 {
      CurrentIff(layout, goal, goal);
    } else {
      NegativeIsNeverCurrent(layout, goal, goal);
    }
  }

  // ----- the printed figures

  /** A number without leading zeros. */
  predicate IsDecimal(s: string) {
    s != "" && AllDigits(s) && (s[0] == '0' ==> s == "0")
  }

  /** One to three digits without leading zeros, then groups of a comma and three digits. */
  predicate IsGrouped(s: string) {
    if |s| <= 3 then IsDecimal(s)
    else s[|s| - 4] == ',' && AllDigits(s[|s| - 3..]) && IsGrouped(s[..|s| - 4]) && s[0] != '0'
  }

  lemma {:induction false} DecimalIsDecimal(n: nat)
    ensures IsDecimal(Decimal(n)) && (Decimal(n)[0] == '0' <==> n == 0)
    ensures n < 1000 ==> |Decimal(n)| <= 3
  {
    if n >= 10 {
      DecimalIsDecimal(n / 10);
      if n < 1000 && n >= 100 {
        DecimalIsDecimal(n / 100);
        assert n / 10 / 10 == n / 100 < 10;
      }
    }
  }

  /** The printed target is grouped by threes. */
  lemma {:induction false} GroupedIsGrouped(n: nat)
    ensures IsGrouped(Grouped(n)) && (Grouped(n)[0] == '0' <==> n == 0)
  {
    if n < 1000 {
      DecimalIsDecimal(n);
    } else {
      GroupedIsGrouped(n / 1000);
      var head, s := Grouped(n / 1000), Grouped(n);
      assert s[..|s| - 4] == head && s[|s| - 3..] == ThreeDigits(n % 1000);
    }
  }

  /** A label shows the clamped percent and the grouped target, and both are read back. */
  lemma LabelSays(goal: Goal)
    requires goal.targetValue >= 0
    ensures exists percent, target ::
              && Label(FiguresOf(goal)) == percent + "% of $" + target + " per month"
              && IsDecimal(percent) && IsGrouped(target)
              && Value(percent) == (if goal.percentComplete < 0 then 0 else if goal.percentComplete > 100 then 100
                                    else goal.percentComplete)
              && AllDigits(WithoutCommas(target)) && Value(WithoutCommas(target)) == goal.targetValue
  {
    var f := FiguresOf(goal);
    var percent, target := Decimal(f.percent), Grouped(f.target);
    DecimalIsDecimal(f.percent);
    DecimalReadsBack(f.percent);
    GroupedIsGrouped(f.target);
    GroupedReadsBack(f.target);
    hide Decimal, Grouped, Value, WithoutCommas, IsGrouped;
    assert Label(f) == percent + "% of $" + target + " per month";
  }

  /** The bar is 4.5 times as wide as the percent, to one decimal. */
  lemma WidthSays(percent: nat)
    ensures exists whole, tenth ::
              && Width(percent) == whole + "." + [tenth] && IsDecimal(whole) && IsDigit(tenth)
              && 10 * Value(whole) + DigitValue(tenth) == 45 * percent
  {
    var whole, tenth := Decimal(45 * percent / 10), DigitChar(45 * percent % 10);
    DecimalIsDecimal(45 * percent / 10);
    DecimalReadsBack(45 * percent / 10);
  }

  // ----- what is searched for

  ghost predicate Reads(s: string, percent: string, target: string) {
    && percent != "" && AllDigits(percent) && target != "" && DigitsAndCommas(target)
    && exists rest :: s == percent + ("% of $" + (target + (" per month" + rest)))
  }

  lemma Cut(s: string, n: nat, part: string)
    requires n <= |s| && part <= s[n..]
    ensures s == s[..n] + (part + s[n + |part|..])
  {
    assert s[n..] == part + s[n + |part|..];
  }

  lemma CutTwice(s: string, n: nat, first: string, k: nat, second: string)
    requires n <= |s| && first <= s[n..] && k <= |s[n + |first|..]| && second <= s[n + |first|..][k..]
    ensures var tail := s[n + |first|..];
      s == s[..n] + (first + (tail[..k] + (second + tail[k + |second|..])))
  {
    Cut(s, n, first);
    Cut(s[n + |first|..], k, second);
  }

  lemma ReadsWith(s: string, percent: string, target: string, rest: string)
    requires percent != "" && AllDigits(percent) && target != "" && DigitsAndCommas(target)
    requires s == percent + (OF + (target + (PER + rest)))
    ensures Reads(s, percent, target)
  {
  }

  lemma LabelForm(s: string) returns (n: nat, k: nat)
    requires LabelAt(s).Some?
    ensures 0 < n <= |s| && OF <= s[n..]
    ensures 0 < k <= |s[n + |OF|..]| && PER <= s[n + |OF|..][k..]
    ensures LabelAt(s) == Some((s[..n], s[n + |OF|..][..k]))
  {
    hide Run, AllDigits, DigitsAndCommas;
    n := Run(s, false);
    k := Run(s[n + |OF|..], true);
  }

  lemma LabelWas(s: string)
    requires LabelAt(s).Some?
    ensures Reads(s, LabelAt(s).value.0, LabelAt(s).value.1)
  {
    hide *;
    var n, k := LabelForm(s);
    CutTwice(s, n, OF, k, PER);
    assert s[..n] != "" && s[n + |OF|..][..k] != "";
    ReadsWith(s, s[..n], s[n + |OF|..][..k], s[n + |OF|..][k + |PER|..]);
  }

  lemma LabelReads(percent: string, target: string, rest: string)
    requires percent != "" && AllDigits(percent) && target != "" && DigitsAndCommas(target)
    ensures LabelAt(percent + ("% of $" + (target + (" per month" + rest)))) == Some((percent, target))
  {
    var tail := target + (PER + rest);
    var s := percent + (OF + tail);
    RunOver(percent, OF + tail, false);
    assert s[|percent|..] == OF + tail;
    assert s[|percent| + |OF|..] == tail;
    RunOver(target, PER + rest, true);
    assert tail[|target|..] == PER + rest;
    assert s[..|percent|] == percent && tail[..|target|] == target;
  }

  /** A label stands at the start of a text iff the text begins with figures and the words around them. */
  lemma LabelIff(s: string, percent: string, target: string)
    ensures LabelAt(s) == Some((percent, target)) <==> Reads(s, percent, target)
  {
    if LabelAt(s) == Some((percent, target)) {
      LabelWas(s);
    }
    if Reads(s, percent, target) {
      var rest :| s == percent + ("% of $" + (target + (" per month" + rest)));
      LabelReads(percent, target, rest);
    }
  }

  ghost predicate ReadsNothing(s: string) {
    forall percent, target :: !Reads(s, percent, target)
  }

  ghost predicate FirstLabel(s: string, i: int, percent: string, target: string) {
    0 <= i <= |s| && Reads(s[i..], percent, target) && forall j :: 0 <= j < i ==> ReadsNothing(s[j..])
  }

  lemma NothingIff(s: string)
    ensures LabelAt(s) == None <==> ReadsNothing(s)
  {
    hide Reads, LabelAt;
    forall percent, target ensures LabelAt(s) == Some((percent, target)) <==> Reads(s, percent, target) {
      LabelIff(s, percent, target);
    }
    if LabelAt(s).Some? {
      assert Reads(s, LabelAt(s).value.0, LabelAt(s).value.1);
    }
  }

  /** The search finds the first label of the card. */
  lemma {:induction false} SearchIff(s: string, percent: string, target: string)
    ensures Search(s) == Some((percent, target)) <==> exists i :: FirstLabel(s, i, percent, target)
  {
    hide LabelAt, Reads, ReadsNothing;
    LabelIff(s, percent, target);
    NothingIff(s);
    assert s[0..] == s;
    if LabelAt(s).Some? {
      if Search(s) == Some((percent, target)) {
        assert FirstLabel(s, 0, percent, target);
      }
      if i :| FirstLabel(s, i, percent, target) {
        FirstIsHere(s, i, percent, target);
      }
    } else {
      NotHere(s, percent, target);
      if s != "" {
        SearchIff(s[1..], percent, target);
      }
    }
  }

  lemma FirstIsHere(s: string, i: int, percent: string, target: string)
    requires FirstLabel(s, i, percent, target) && LabelAt(s).Some?
    ensures i == 0 && Reads(s, percent, target)
  {
    hide LabelAt, Reads, ReadsNothing;
    NothingIff(s);
    assert s[0..] == s;
  }

  lemma NotHere(s: string, percent: string, target: string)
    requires LabelAt(s) == None
    ensures (exists i :: FirstLabel(s, i, percent, target))
       <==> s != "" && exists i :: FirstLabel(s[1..], i, percent, target)
  {
    hide LabelAt, Reads, ReadsNothing;
    NothingIff(s);
    LabelIff(s, percent, target);
    assert s[0..] == s;
    if i :| FirstLabel(s, i, percent, target) {
      assert i != 0;
      assert s[i..] == s[1..][i - 1..];
      assert forall j :: 0 <= j < i - 1 ==> s[1..][j..] == s[j + 1..];
      assert FirstLabel(s[1..], i - 1, percent, target);
    }
    if s != "" {
      if i :| FirstLabel(s[1..], i, percent, target) {
        assert s[1..][i..] == s[i + 1..];
        forall j | 0 <= j < i + 1 ensures ReadsNothing(s[j..]) {
          assert j > 0 ==> s[j..] == s[1..][j - 1..];
        }
        assert FirstLabel(s, i + 1, percent, target);
      }
    }
  }

  /** The first label of the card shows the figures of the goal. */
  ghost predicate Shows(card: string, goal: Goal, i: int, percent: string, target: string) {
    && FirstLabel(card, i, percent, target)
    && WithoutCommas(target) != ""
    && Value(percent) == (if goal.percentComplete < 0 then 0 else if goal.percentComplete > 100 then 100
                          else goal.percentComplete)
    && Value(WithoutCommas(target)) == goal.targetValue
  }

  /** For any card: it is current iff its first label shows the figures, and unreadable iff that has only commas. */
  lemma CurrentSays(card: string, goal: Goal)
    ensures CardIsCurrent(card, goal) == Some(true)
       <==> exists i, percent, target :: Shows(card, goal, i, percent, target)
    ensures CardIsCurrent(card, goal) == None
       <==> exists i, percent, target :: FirstLabel(card, i, percent, target) && WithoutCommas(target) == ""
  {
    hide LabelAt, Reads, ReadsNothing, Search, FirstLabel, Value, WithoutCommas;
    if Search(card).Some? {
      SearchIff(card, Search(card).value.0, Search(card).value.1);
    }
    forall i, percent, target | FirstLabel(card, i, percent, target) ensures Search(card) == Some((percent, target)) {
      SearchIff(card, percent, target);
    }
    if CardIsCurrent(card, goal) == Some(true) {
      var m := Search(card).value;
      var i :| FirstLabel(card, i, m.0, m.1);
      assert Shows(card, goal, i, m.0, m.1);
    }
  }
}
