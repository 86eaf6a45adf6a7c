/**
 * The integer and exact-real parts of `drawBar` and `drawPie` in script.js
 * (lines 111-162) and of `drawGraphs` (lines 83-88): the bar scale, the bar
 * positions and minute labels, the pie total with its zero guard, the wedge
 * angles, and the colour lookups both charts make.
 *
 * Angles are measured in turns (1 turn = 2 * pi radians), so the pie's
 * starting angle -pi/2 is -1/4 and a wedge for value v of total t spans v/t.
 */
module Charts {
  import opened Wrappers
  import opened Decimal
  import opened Colors
  import opened RangeData
  import opened Sequences

  // ---------------------------------------------------------------------------
  // Bar chart arithmetic

  /** `Math.max(...values, 1)`: the largest value, but never below 1. */
  function ScaleMax(values: seq<int>): (m: int)
    ensures m >= 1
    ensures forall i :: 0 <= i < |values| ==> values[i] <= m
    ensures m == 1 || m in values
    decreases |values|
  {
    if values == [] then 1
    else
      var init := values[..|values| - 1];
      var rest := ScaleMax(init);
      var v := values[|values| - 1];
      assert rest in init ==> rest in values;
      if v > rest then v else rest
  }

  const BarWidth: int := 40

  /** `20 + i * 60`: the left edge of bar `i`; the edge gives back the index. */
  function BarX(i: nat): (x: int)
    ensures x >= 20 && (x - 20) % 60 == 0 && (x - 20) / 60 == i
  {
    20 + i * 60
  }

  /** Bars never overlap: a gap of 20 separates neighbours. */
  lemma BarsApart(i: nat, j: nat)
    requires i < j
    ensures BarX(i) + BarWidth + 20 <= BarX(j)
  {
  }

  /** JavaScript's `v % 60`: the remainder takes the sign of the dividend. */
  function JsRemainder60(a: int): (r: int)
    ensures -60 < r < 60
    ensures a >= 0 ==> r >= 0
    ensures a <= 0 ==> r <= 0
    ensures (a - r) % 60 == 0
  {
    if a >= 0 then
      assert a - a % 60 == 60 * (a / 60);
      MultipleOf60(a / 60);
      a % 60
    else
      assert a + (-a) % 60 == 60 * -((-a) / 60);
      MultipleOf60(-((-a) / 60));
      -((-a) % 60)
  }

  lemma MultipleOf60(k: int)
    ensures (60 * k) % 60 == 0
  {
  }

  /**
   * The bar's value label: `hh = Math.floor(v / 60)`, `mm = v % 60`, shown
   * as `<hh>h<mm>m` when `hh > 0`, otherwise `<mm>m`.
   */
  function MinuteLabel(v: int): (text: string)
    ensures |text| >= 2 && text[|text| - 1] == 'm'
  {
    LabelText(v / 60, JsRemainder60(v))
  }

  /** `<hh>h<mm>m` when `hh > 0`, otherwise `<mm>m`. */
  function LabelText(hh: int, mm: int): (text: string)
    ensures |text| >= 2 && text[|text| - 1] == 'm'
  {
    (if hh > 0 then IntToString(hh) + "h" else "") + IntToString(mm) + "m"
  }

  /** The label has an hour part exactly when the total is at least an hour. */
  lemma HourMark(v: int)
    ensures 'h' in MinuteLabel(v) <==> v >= 60
  {
    LabelTextHourMark(v / 60, JsRemainder60(v));
  }

  /** Only the hour mark is an 'h': the numbers' digits and sign never are. */
  lemma LabelTextHourMark(hh: int, mm: int)
    ensures 'h' in LabelText(hh, mm) <==> hh > 0
  {
    var text := LabelText(hh, mm);
    var hours := if hh > 0 then IntToString(hh) + "h" else "";
    var minutes := IntToString(mm);
    assert text == hours + minutes + "m";
    NoHourMark(minutes);
    if hh > 0 {
      NoHourMark(IntToString(hh));
      assert text[|IntToString(hh)|] == 'h';
    } else {
      assert forall i :: 0 <= i < |text| ==> text[i] != 'h' by {
        forall i | 0 <= i < |text| ensures text[i] != 'h' {
          if i < |minutes| {
            assert text[i] == minutes[i];
          }
        }
      }
    }
  }

  /** Decimal text has no 'h' in it. */
  lemma NoHourMark(t: string)
    requires t != [] && (IsDigit(t[0]) || t[0] == '-') && AllDigits(t[1..])
    ensures forall i :: 0 <= i < |t| ==> t[i] != 'h'
  {
    forall i | 0 < i < |t| ensures t[i] != 'h' {
      assert t[1..][i - 1] == t[i];
    }
  }

  /** Reads a label `<h>h<m>m` or `<m>m` back into minutes. */
  function ParseLabel(text: string): Option<nat> {
    if text == [] || text[|text| - 1] != 'm' then None else ParseBody(text[..|text| - 1])
  }

  /** Reads `<h>h<m>` or `<m>` (a label without its final 'm'). */
  function ParseBody(body: string): Option<nat> {
    var k := IndexOf(body, 'h');
    if k == |body| then ReadWhole(body) else ReadSplit(body[..k], body[k + 1..])
  }

  /** Reads a body without an hour mark as minutes. */
  function ReadWhole(minutes: string): Option<nat> {
    if minutes != [] && AllDigits(minutes) then Some(DigitsValue(minutes)) else None
  }

  /** Reads the digits before and after the hour mark as `60 * hours + minutes`. */
  function ReadSplit(hours: string, minutes: string): Option<nat> {
    if hours != [] && AllDigits(hours) && minutes != [] && AllDigits(minutes)
    then Some(60 * DigitsValue(hours) + DigitsValue(minutes))
    else None
  }

  /** In `<h>h<m>` with digits on both sides, the hour mark is the one after the hour digits. */
  lemma HourMarkPosition(h: string, m: string)
    requires AllDigits(h)
    ensures IndexOf(h + "h" + m, 'h') == |h|
  {
    var body := h + "h" + m;
    var k := IndexOf(body, 'h');
    assert body[|h|] == 'h';
    assert forall i :: 0 <= i < |h| ==> body[i] == h[i];
  }

  /** A body with its first hour mark at `k` is read as the digits before it and the digits after it. */
  lemma ParseBodyAt(body: string, k: nat)
    requires k < |body| && IndexOf(body, 'h') == k
    ensures ParseBody(body) == ReadSplit(body[..k], body[k + 1..])
  {
  }

  /** A body split at its first hour mark reads as hours and minutes. */
  lemma ParseBodySplit(body: string, h: string, m: string)
    requires |h| < |body| && IndexOf(body, 'h') == |h| && body[..|h|] == h && body[|h| + 1..] == m
    requires h != [] && AllDigits(h) && m != [] && AllDigits(m)
    ensures ParseBody(body) == Some(60 * DigitsValue(h) + DigitsValue(m))
  {
    ParseBodyAt(body, |h|);
    assert ReadSplit(body[..|h|], body[|h| + 1..]) == ReadSplit(h, m);
    ReadSplitDigits(h, m);
  }

  /** Digits on both sides of the hour mark read as `60 * hours + minutes`. */
  lemma ReadSplitDigits(h: string, m: string)
    requires h != [] && AllDigits(h) && m != [] && AllDigits(m)
    ensures ReadSplit(h, m) == Some(60 * DigitsValue(h) + DigitsValue(m))
  {
  }

  /** The hours form `<h>h<m>m` reads back as `60 * h + m`. */
  lemma ParseHoursForm(h: string, m: string)
    requires h != [] && AllDigits(h) && m != [] && AllDigits(m)
    ensures ParseLabel(h + "h" + m + "m") == Some(60 * DigitsValue(h) + DigitsValue(m))
  {
    var body := h + "h" + m;
    var text := body + "m";
    assert text == h + "h" + m + "m";
    assert text[..|text| - 1] == body;
    HourMarkPosition(h, m);
    assert body[..|h|] == h;
    assert body[|h| + 1..] == m;
    ParseBodySplit(body, h, m);
  }

  /** The minutes form `<m>m` reads back as `m`. */
  lemma ParseMinutesForm(m: string)
    requires m != [] && AllDigits(m)
    ensures ParseLabel(m + "m") == Some(DigitsValue(m))
  {
    var text := m + "m";
    assert text[..|text| - 1] == m;
    assert IndexOf(m, 'h') == |m|;
  }

  /** A label with an hour part reads back as `v == 60 * hh + mm`. */
  lemma HoursLabelRoundTrip(hh: nat, mm: nat, v: nat)
    requires hh > 0 && v == 60 * hh + mm
    ensures ParseLabel(LabelText(hh, mm)) == Some(v)
  {
    var h, m := NatToString(hh), NatToString(mm);
    assert LabelText(hh, mm) == h + "h" + m + "m";
    ParseHoursForm(h, m);
    DecimalRoundTrip(hh);
    DecimalRoundTrip(mm);
  }

  /** A label without an hour part reads back as its minutes. */
  lemma MinutesLabelRoundTrip(hh: nat, mm: nat)
    requires hh == 0
    ensures ParseLabel(LabelText(hh, mm)) == Some(mm)
  {
    var m := NatToString(mm);
    assert LabelText(hh, mm) == m + "m";
    ParseMinutesForm(m);
    DecimalRoundTrip(mm);
  }

  /** The text of any hours and minutes reads back as `v == 60 * hh + mm`. */
  lemma LabelTextRoundTrip(hh: nat, mm: nat, v: nat)
    requires v == 60 * hh + mm
    ensures ParseLabel(LabelText(hh, mm)) == Some(v)
  {
    if hh > 0 {
      HoursLabelRoundTrip(hh, mm, v);
    } else {
      MinutesLabelRoundTrip(hh, mm);
    }
  }

  /** For a non-negative total, the label's parts are the quotient and remainder by 60. */
  lemma LabelParts(v: nat)
    ensures JsRemainder60(v) >= 0 && 60 * (v / 60) + JsRemainder60(v) == v
  {
  }

  /** For every non-negative total, the label reads back as that total: `60 * hh + mm == v`. */
  lemma LabelRoundTrip(v: nat)
    ensures ParseLabel(MinuteLabel(v)) == Some(v)
  {
    LabelParts(v);
    LabelTextRoundTrip(v / 60, JsRemainder60(v), v);
  }

  /** A negative total loses its hour part: the label shows only the remainder. */
  lemma NegativeLabel()
    ensures MinuteLabel(-65) == "-5m"
  {
    assert JsRemainder60(-65) == -5;
    assert NatToString(5) == "5";
  }

  // ---------------------------------------------------------------------------
  // Pie chart arithmetic

  /** `values.reduce((a, b) => a + b, 0)`. */
  function Sum(values: seq<int>): (t: int)
    ensures (forall i :: 0 <= i < |values| ==> values[i] >= 0) ==> t >= 0
    decreases |values|
  {
    if values == [] then 0 else Sum(values[..|values| - 1]) + values[|values| - 1]
  }

  /** With no negative values, the pie is skipped exactly when every value is zero. */
  lemma {:induction false} ZeroTotal(values: seq<int>)
    requires forall i :: 0 <= i < |values| ==> values[i] >= 0
    ensures Sum(values) >= 0
    ensures Sum(values) == 0 <==> forall i :: 0 <= i < |values| ==> values[i] == 0
    decreases |values|
  {
    if values != [] {
      var init := values[..|values| - 1];
      ZeroTotal(init);
      if Sum(values) == 0 {
        forall i | 0 <= i < |values| ensures values[i] == 0 {
          if i < |init| {
            assert init[i] == values[i];
          }
        }
      }
    }
  }

  /** The sweep of a wedge: `v / total` of a turn. */
  function Fraction(v: int, total: int): (r: real)
    requires total != 0
    ensures 0 <= v <= total ==> 0.0 <= r <= 1.0
    ensures v == total ==> r == 1.0
    ensures v == 0 ==> r == 0.0
  {
    v as real / total as real
  }

  /**
   * Where wedge `i` starts: -1/4 turn (12 o'clock) plus the fractions of the
   * wedges before it.  The first wedge starts at 12 o'clock, and the angle
   * after the last wedge is one full turn later.
   */
  function StartTurn(values: seq<int>, i: nat): (a: real)
    requires i <= |values| && Sum(values) != 0
    ensures i == 0 ==> a == -0.25
    ensures i == |values| ==> a == 0.75
  {
    assert values[..0] == [];
    assert values[..|values|] == values;
    -0.25 + Fraction(Sum(values[..i]), Sum(values))
  }

  /** With no negative values every wedge starts within the turn that begins at 12 o'clock. */
  lemma WedgeStartsWithinTurn(values: seq<int>, i: nat)
    requires i <= |values| && Sum(values) != 0
    requires forall k :: 0 <= k < |values| ==> values[k] >= 0
    ensures -0.25 <= StartTurn(values, i) <= 0.75
  {
    SumPrefixBound(values, i);
  }

  /** With no negative values, a prefix sums to between 0 and the whole. */
  lemma {:induction false} SumPrefixBound(values: seq<int>, i: nat)
    requires i <= |values|
    requires forall k :: 0 <= k < |values| ==> values[k] >= 0
    ensures 0 <= Sum(values[..i]) <= Sum(values)
    decreases |values|
  {
    if i < |values| {
      var init := values[..|values| - 1];
      assert values[..i] == init[..i];
      assert forall k :: 0 <= k < |init| ==> init[k] == values[k];
      SumPrefixBound(init, i);
    } else {
      assert values[..i] == values;
    }
  }

  lemma AddFractions(a: int, b: int, t: int)
    requires t != 0
    ensures a as real / t as real + b as real / t as real == (a + b) as real / t as real
  {
  }

  /** Each wedge ends where the next begins. */
  lemma WedgesAdjacent(values: seq<int>, i: nat)
    requires i < |values| && Sum(values) != 0
    ensures StartTurn(values, i) + Fraction(values[i], Sum(values)) == StartTurn(values, i + 1)
  {
    assert values[..i + 1][..i] == values[..i];
    AddFractions(Sum(values[..i]), values[i], Sum(values));
  }

  // ---------------------------------------------------------------------------
  // Drawing

  /** The totals' values, in order. */
  function Values(data: seq<(string, int)>): (vs: seq<int>)
    ensures |vs| == |data| && forall i :: 0 <= i < |data| ==> vs[i] == data[i].1
  {
    seq(|data|, i requires 0 <= i < |data| => data[i].1)
  }

  /** The `getColor(s, i)` calls a chart makes: each subject with its position. */
  function Positions(data: seq<(string, int)>): (calls: seq<(string, nat)>)
    ensures |calls| == |data| && forall i :: 0 <= i < |data| ==> calls[i] == (data[i].0, i)
  {
    seq(|data|, i requires 0 <= i < |data| => (data[i].0, i as nat))
  }

  /** One bar: its subject, left edge, the minutes it stands for, and fill colour. */
  datatype Bar = Bar(subject: string, x: int, minutes: int, color: Hsl)
  {
    /** The value label drawn above the bar. */
    function Caption(): string {
      MinuteLabel(minutes)
    }
  }

  /** One wedge: its subject, start angle and sweep in turns, and fill colour. */
  datatype Wedge = Wedge(subject: string, start: real, sweep: real, color: Hsl)

  /** The bar of entry `k`. */
  function BarAt(entry: (string, int), k: nat, colors: map<string, Hsl>): Bar
    requires entry.0 in colors
  {
    Bar(entry.0, BarX(k), entry.1, colors[entry.0])
  }

  /** The bars for `data` once every subject in it has a colour in `colors`. */
  function BarsFor(data: seq<(string, int)>, colors: map<string, Hsl>): (bars: seq<Bar>)
    requires forall k :: 0 <= k < |data| ==> data[k].0 in colors
    ensures |bars| == |data|
    ensures forall k :: 0 <= k < |data| ==> bars[k] == BarAt(data[k], k, colors)
    decreases |data|
  {
    if data == [] then [] else
      var n := |data| - 1;
      var init := data[..n];
      assert forall k :: 0 <= k < n ==> init[k] == data[k];
      BarsFor(init, colors) + [BarAt(data[n], n, colors)]
  }

  /** Drawing bar `i` extends the bars drawn so far; earlier colours are unchanged. */
  lemma BarsForStep(data: seq<(string, int)>, i: nat, colors: map<string, Hsl>, colors': map<string, Hsl>)
    requires i < |data|
    requires forall k :: 0 <= k < i ==> data[k].0 in colors
    requires forall s :: s in colors ==> s in colors' && colors'[s] == colors[s]
    requires data[i].0 in colors'
    ensures forall k :: 0 <= k <= i ==> data[k].0 in colors'
    ensures BarsFor(data[..i + 1], colors')
         == BarsFor(data[..i], colors) + [BarAt(data[i], i, colors')]
  {
    BarsForFrame(data[..i], colors, colors');
    BarsForSnoc(data, i, colors');
  }

  /** Bars depend only on the colours of their own subjects. */
  lemma BarsForFrame(data: seq<(string, int)>, colors: map<string, Hsl>, colors': map<string, Hsl>)
    requires forall k :: 0 <= k < |data| ==> data[k].0 in colors
    requires forall s :: s in colors ==> s in colors' && colors'[s] == colors[s]
    ensures BarsFor(data, colors') == BarsFor(data, colors)
  {
    var b, b' := BarsFor(data, colors), BarsFor(data, colors');
    assert forall k :: 0 <= k < |data| ==> b'[k] == b[k];
  }

  /** The bars of one more entry are the earlier bars and one new bar. */
  lemma BarsForSnoc(data: seq<(string, int)>, i: nat, colors: map<string, Hsl>)
    requires i < |data|
    requires forall k :: 0 <= k <= i ==> data[k].0 in colors
    ensures BarsFor(data[..i + 1], colors)
         == BarsFor(data[..i], colors) + [BarAt(data[i], i, colors)]
  {
    assert data[..i + 1][..i] == data[..i];
  }

  /**
   * `drawBar` for the given totals: the scale maximum, then one bar per
   * entry in order, each coloured by `getColor(s, i)`.  A subject seen for
   * the first time takes the hue of its own position.
   */
  method DrawBar(table: ColorTable, data: seq<(string, int)>) returns (max: int, bars: seq<Bar>)
    modifies table
    ensures max == ScaleMax(Values(data))
    ensures table.colors == Replay(old(table.colors), Positions(data))
    ensures forall i :: 0 <= i < |data| ==> data[i].0 in table.colors
    ensures bars == BarsFor(data, table.colors)
    ensures UniqueKeys(data) ==> forall i :: 0 <= i < |data| && data[i].0 !in old(table.colors) ==>
      bars[i].color == FreshColor(i)
  {
    max := ScaleMax(Values(data));
    bars := [];
    ghost var start, calls := table.colors, Positions(data);
    var i := 0;
    while i < |data|
      invariant 0 <= i <= |data|
      invariant table.colors == Replay(start, calls[..i])
      invariant forall k :: 0 <= k < i ==> data[k].0 in table.colors
      invariant bars == BarsFor(data[..i], table.colors)
    {
      var (s, v) := data[i];
      ghost var before := table.colors;
      var c := table.GetColor(s, i);
      DrawBarStep(start, data, i, before, table.colors);
      bars := bars + [Bar(s, BarX(i), v, c)];
      i := i + 1;
    }
    assert calls[..|data|] == calls;
    assert data[..|data|] == data;
    if UniqueKeys(data) {
      FreshBarColors(start, data);
    }
  }

  /** One iteration of `drawBar`: a `getColor(s, i)` call, then bar `i` in the colour it returned. */
  lemma DrawBarStep(start: map<string, Hsl>, data: seq<(string, int)>, i: nat,
                    before: map<string, Hsl>, after: map<string, Hsl>)
    requires i < |data|
    requires before == Replay(start, Positions(data)[..i])
    requires forall k :: 0 <= k < i ==> data[k].0 in before
    requires after == Bind(before, data[i].0, i)
    ensures after == Replay(start, Positions(data)[..i + 1])
    ensures forall k :: 0 <= k <= i ==> data[k].0 in after
    ensures BarsFor(data[..i + 1], after)
         == BarsFor(data[..i], before) + [Bar(data[i].0, BarX(i), data[i].1, after[data[i].0])]
  {
    ReplayStep(start, Positions(data), i);
    BarsForStep(data, i, before, after);
  }

  /** With distinct subjects, each not-yet-coloured subject's bar has the hue of its position. */
  lemma FreshBarColors(table: map<string, Hsl>, data: seq<(string, int)>)
    requires UniqueKeys(data)
    requires forall i :: 0 <= i < |data| ==> data[i].0 in Replay(table, Positions(data))
    ensures forall i :: 0 <= i < |data| && data[i].0 !in table ==>
      BarsFor(data, Replay(table, Positions(data)))[i].color == FreshColor(i)
  {
    var calls := Positions(data);
    forall i | 0 <= i < |data| && data[i].0 !in table
      ensures Replay(table, calls)[data[i].0] == FreshColor(i)
    {
      FirstIndexWins(table, calls, i);
    }
  }

  /** The wedge of entry `k` of a pie whose values are `values`. */
  function WedgeAt(entry: (string, int), k: nat, values: seq<int>, colors: map<string, Hsl>): Wedge
    requires k <= |values| && Sum(values) != 0 && entry.0 in colors
  {
    Wedge(entry.0, StartTurn(values, k), Fraction(entry.1, Sum(values)), colors[entry.0])
  }

  /** The wedges for `data` once every subject in it has a colour in `colors`; `values` are the whole pie's. */
  function WedgesFor(data: seq<(string, int)>, values: seq<int>, colors: map<string, Hsl>): (wedges: seq<Wedge>)
    requires |data| <= |values| && Sum(values) != 0
    requires forall k :: 0 <= k < |data| ==> data[k].0 in colors
    ensures |wedges| == |data|
    ensures forall k :: 0 <= k < |data| ==> wedges[k] == WedgeAt(data[k], k, values, colors)
    decreases |data|
  {
    if data == [] then [] else
      var n := |data| - 1;
      var init := data[..n];
      assert forall k :: 0 <= k < n ==> init[k] == data[k];
      WedgesFor(init, values, colors) + [WedgeAt(data[n], n, values, colors)]
  }

  /** Drawing wedge `i` extends the wedges drawn so far; earlier colours are unchanged. */
  lemma WedgesForStep(data: seq<(string, int)>, values: seq<int>, i: nat,
                      colors: map<string, Hsl>, colors': map<string, Hsl>)
    requires i < |data| <= |values| && Sum(values) != 0
    requires forall k :: 0 <= k < i ==> data[k].0 in colors
    requires forall s :: s in colors ==> s in colors' && colors'[s] == colors[s]
    requires data[i].0 in colors'
    ensures forall k :: 0 <= k <= i ==> data[k].0 in colors'
    ensures WedgesFor(data[..i + 1], values, colors')
         == WedgesFor(data[..i], values, colors)
            + [WedgeAt(data[i], i, values, colors')]
  {
    WedgesForFrame(data[..i], values, colors, colors');
    WedgesForSnoc(data, values, i, colors');
  }

  /** Wedges depend only on the colours of their own subjects. */
  lemma WedgesForFrame(data: seq<(string, int)>, values: seq<int>, colors: map<string, Hsl>, colors': map<string, Hsl>)
    requires |data| <= |values| && Sum(values) != 0
    requires forall k :: 0 <= k < |data| ==> data[k].0 in colors
    requires forall s :: s in colors ==> s in colors' && colors'[s] == colors[s]
    ensures WedgesFor(data, values, colors') == WedgesFor(data, values, colors)
  {
    var w, w' := WedgesFor(data, values, colors), WedgesFor(data, values, colors');
    assert forall k :: 0 <= k < |data| ==> w'[k] == w[k];
  }

  /** The wedges of one more entry are the earlier wedges and one new wedge. */
  lemma WedgesForSnoc(data: seq<(string, int)>, values: seq<int>, i: nat, colors: map<string, Hsl>)
    requires i < |data| <= |values| && Sum(values) != 0
    requires forall k :: 0 <= k <= i ==> data[k].0 in colors
    ensures WedgesFor(data[..i + 1], values, colors)
         == WedgesFor(data[..i], values, colors) + [WedgeAt(data[i], i, values, colors)]
  {
    assert data[..i + 1][..i] == data[..i];
  }

  /**
   * `drawPie` for the given totals: nothing at all (not even a colour
   * lookup) when the total is 0; otherwise one wedge per entry in order,
   * starting at 12 o'clock, each as wide as its share of the total.
   */
  method DrawPie(table: ColorTable, data: seq<(string, int)>) returns (wedges: seq<Wedge>)
    modifies table
    ensures Sum(Values(data)) == 0 ==> wedges == [] && table.colors == old(table.colors)
    ensures Sum(Values(data)) != 0 ==>
      && table.colors == Replay(old(table.colors), Positions(data))
      && (forall i :: 0 <= i < |data| ==> data[i].0 in table.colors)
      && wedges == WedgesFor(data, Values(data), table.colors)
  {
    var total := Sum(Values(data));
    if total == 0 {
      return [];
    }
    wedges := [];
    ghost var values, start, calls := Values(data), table.colors, Positions(data);
    var angle := -0.25;
    var i := 0;
    assert values[..0] == [];
    while i < |data|
      invariant 0 <= i <= |data|
      invariant angle == StartTurn(values, i)
      invariant table.colors == Replay(start, calls[..i])
      invariant forall k :: 0 <= k < i ==> data[k].0 in table.colors
      invariant wedges == WedgesFor(data[..i], values, table.colors)
    {
      var (s, v) := data[i];
      var slice := v as real / total as real;
      ghost var before := table.colors;
      var c := table.GetColor(s, i);
      DrawPieStep(start, data, i, before, table.colors);
      wedges := wedges + [Wedge(s, angle, slice, c)];
      angle := angle + slice;
      i := i + 1;
    }
    assert calls[..|data|] == calls;
    assert data[..|data|] == data;
  }

  /** One iteration of `drawPie`: a `getColor(s, i)` call, wedge `i` in that colour, and the angle moved on. */
  lemma DrawPieStep(start: map<string, Hsl>, data: seq<(string, int)>, i: nat,
                    before: map<string, Hsl>, after: map<string, Hsl>)
    requires i < |data| && Sum(Values(data)) != 0
    requires before == Replay(start, Positions(data)[..i])
    requires forall k :: 0 <= k < i ==> data[k].0 in before
    requires after == Bind(before, data[i].0, i)
    ensures after == Replay(start, Positions(data)[..i + 1])
    ensures forall k :: 0 <= k <= i ==> data[k].0 in after
    ensures WedgesFor(data[..i + 1], Values(data), after)
         == WedgesFor(data[..i], Values(data), before)
            + [Wedge(data[i].0, StartTurn(Values(data), i),
                     data[i].1 as real / Sum(Values(data)) as real, after[data[i].0])]
    ensures StartTurn(Values(data), i) + data[i].1 as real / Sum(Values(data)) as real
         == StartTurn(Values(data), i + 1)
  {
    ReplayStep(start, Positions(data), i);
    WedgesForStep(data, Values(data), i, before, after);
    WedgesAdjacent(Values(data), i);
  }

  /** The bars show the totals in order: one bar per entry, its subject, its value (and so its caption). */
  predicate BarsMatch(bars: seq<Bar>, totals: seq<(string, int)>) {
    && |bars| == |totals|
    && forall i :: 0 <= i < |bars| ==> bars[i].subject == totals[i].0 && bars[i].minutes == totals[i].1
  }

  /** The wedges show the totals' subjects in order, one wedge per entry. */
  predicate WedgesMatch(wedges: seq<Wedge>, totals: seq<(string, int)>) {
    && |wedges| == |totals|
    && forall k :: 0 <= k < |wedges| ==> wedges[k].subject == totals[k].0
  }

  /** A subject drawn as a bar and as a wedge has the same colour in both. */
  predicate ColorsAgree(bars: seq<Bar>, wedges: seq<Wedge>) {
    forall i, k :: 0 <= i < |bars| && 0 <= k < |wedges| && bars[i].subject == wedges[k].subject ==>
      bars[i].color == wedges[k].color
  }

  /** Bars drawn from `data` show its entries in order: subjects and minutes. */
  lemma BarsShowTotals(data: seq<(string, int)>, colors: map<string, Hsl>)
    requires forall k :: 0 <= k < |data| ==> data[k].0 in colors
    ensures BarsMatch(BarsFor(data, colors), data)
  {
  }

  /** Wedges drawn from `data` show its subjects in order, one wedge per entry. */
  lemma WedgesShowTotals(data: seq<(string, int)>, colors: map<string, Hsl>)
    requires Sum(Values(data)) != 0
    requires forall k :: 0 <= k < |data| ==> data[k].0 in colors
    ensures WedgesMatch(WedgesFor(data, Values(data), colors), data)
  {
  }

  /**
   * A subject in both charts has one colour: the bars took their colours
   * from the table after the bar pass, the wedges from the table after the
   * pie pass, and the pie pass only added bindings.
   */
  lemma SharedColors(barData: seq<(string, int)>, mid: map<string, Hsl>,
                     pieData: seq<(string, int)>, end: map<string, Hsl>)
    requires forall i :: 0 <= i < |barData| ==> barData[i].0 in mid
    requires forall s :: s in mid ==> s in end && end[s] == mid[s]
    requires Sum(Values(pieData)) != 0
    requires forall k :: 0 <= k < |pieData| ==> pieData[k].0 in end
    ensures ColorsAgree(BarsFor(barData, mid), WedgesFor(pieData, Values(pieData), end))
  {
  }

  /**
   * `drawGraphs`: nothing when the store has no date at all; otherwise the
   * bar chart, then the pie chart, each over `getRangeData(range)` taken at
   * its own instant.  A subject drawn in both charts has the same colour in
   * both.  The bars and the wedges are `BarsFor` and `WedgesFor` of the
   * range totals, so they show those totals in order (`BarsShowTotals`,
   * `WedgesShowTotals`), whose values are the subjects' totals
   * (`RangeTotalsCorrect`).
   */
  method DrawGraphs(table: ColorTable, store: Store, parse: string -> Option<Moment>, range: Range,
                    barNow: Moment, pieNow: Moment)
    returns (bars: seq<Bar>, wedges: seq<Wedge>)
    modifies table
    ensures store == [] ==> bars == [] && wedges == [] && table.colors == old(table.colors)
    ensures store != [] ==>
      var barTotals := RangeTotals(store, parse, range, barNow);
      var pieTotals := RangeTotals(store, parse, range, pieNow);
      var mid := Replay(old(table.colors), Positions(barTotals));
      && (wedges == [] <==> Sum(Values(pieTotals)) == 0)
      && table.colors == (if Sum(Values(pieTotals)) == 0 then mid else Replay(mid, Positions(pieTotals)))
    ensures forall k :: 0 <= k < |RangeTotals(store, parse, range, barNow)| ==>
      RangeTotals(store, parse, range, barNow)[k].0 in table.colors
    ensures bars == BarsFor(RangeTotals(store, parse, range, barNow), table.colors)
    ensures wedges != [] ==>
      var pieTotals := RangeTotals(store, parse, range, pieNow);
      && Sum(Values(pieTotals)) != 0
      && (forall k :: 0 <= k < |pieTotals| ==> pieTotals[k].0 in table.colors)
      && wedges == WedgesFor(pieTotals, Values(pieTotals), table.colors)
    ensures ColorsAgree(bars, wedges)
  {
    if store == [] {
      return [], [];
    }
    var barData := GetRangeData(store, parse, range, barNow);
    var max;
    max, bars := DrawBar(table, barData);
    ghost var mid := table.colors;
    var pieData := GetRangeData(store, parse, range, pieNow);
    wedges := DrawPie(table, pieData);
    if wedges != [] {
      ReplayKeepsBindings(mid, Positions(pieData));
      BarsForFrame(barData, mid, table.colors);
      SharedColors(barData, mid, pieData, table.colors);
    } else if Sum(Values(pieData)) != 0 {
      NonZeroTotalHasEntries(Values(pieData));
    }
  }

  /** A non-zero total needs at least one value. */
  lemma NonZeroTotalHasEntries(values: seq<int>)
    requires Sum(values) != 0
    ensures values != []
  {
  }
}
