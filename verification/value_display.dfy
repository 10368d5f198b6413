/** `ValueDisplay`: a multimeter-style readout.  The model covers what the
    widget stores and the texts it derives from that: the unit for a mode
    code, the prefix for a range code, the mode label, the text colour, and
    the status line.  The measured value is stored verbatim and never
    interpreted, so it is a `real` here; formatting it is left out. */
module ValueDisplay {
  import opened Strings
  import opened OrderedMap

  type u8 = x: int | 0 <= x < 0x100

  /** A `COLORREF`. */
  datatype Rgb = Rgb(r: u8, g: u8, b: u8)

  /** `DisplayConfig` without the font settings. */
  datatype DisplayConfig = DisplayConfig(
    background: Rgb,
    text: Rgb,
    holdText: Rgb,
    deltaText: Rgb,
    precision: int)

  /** The configuration a display starts with. */
  const DefaultConfig: DisplayConfig :=
    DisplayConfig(Rgb(20, 20, 20), Rgb(0, 220, 0), Rgb(220, 0, 0), Rgb(0, 0, 220), 2)

  /** The widget's state.  `modeLabel` is the explicit label, empty when
      none was set; `statuses` is the `std::map` of custom statuses. */
  datatype Display = Display(
    value: real,
    mode: u8,
    range: u8,
    modeLabel: String,
    isAuto: bool,
    isHold: bool,
    isDelta: bool,
    prefix: String,
    unit: String,
    statuses: Entries<bool>,
    config: DisplayConfig)

  /** The statuses are a `std::map`: ascending, distinct names. */
  predicate Valid(d: Display) {
    Ordered(d.statuses)
  }

  /** The constructed display: zero everywhere, no texts, no statuses. */
  function NewDisplay(): (r: Display)
    ensures Valid(r) && r.statuses == [] && r.modeLabel == [] && r.unit == [] && r.prefix == []
    ensures !r.isAuto && !r.isHold && !r.isDelta && r.config == DefaultConfig
  {
    Display(0.0, 0, 0, [], false, false, false, [], [], [], DefaultConfig)
  }

  // ---------------------------------------------------------------------
  // Code tables
  // ---------------------------------------------------------------------

  /** The mode codes the meter reports a measurement for. */
  const MeasuringModes: set<u8> := {1, 3, 5, 7, 9, 10, 11, 12, 13, 14}

  /** The direct-current modes, whose label is "DC " and the unit. */
  const DcModes: set<u8> := {1, 3, 5, 7, 9}

  /** The unit `updateDisplay` shows for a mode code. */
  function UnitFor(mode: u8): (r: String)
    ensures r != [] <==> mode in MeasuringModes
  {
    match mode
    case 1 => "mV"
    case 3 => "V"
    case 5 => "A"
    case 7 => "mA"
    case 9 => "\U{03BC}A"
    case 10 => "V"
    case 11 => "\U{03A9}"
    case 12 => "\U{00B0}C"
    case 13 => "Hz"
    case 14 => "F"
    case _ => ""
  }

  /** The metric prefix `updateDisplay` shows for a range code: nano to
      mega for 0..5, with 3 the base unit. */
  function PrefixFor(range: u8): (r: String)
    ensures r != [] <==> range <= 5 && range != 3
    ensures |r| <= 1
  {
    match range
    case 0 => "n"
    case 1 => "\U{03BC}"
    case 2 => "m"
    case 4 => "k"
    case 5 => "M"
    case _ => ""
  }

  /** `getRangeString`: the name of a range code. */
  function RangeString(range: u8): (r: String)
    ensures r != [] <==> range <= 5
  {
    match range
    case 0 => "nano"
    case 1 => "micro"
    case 2 => "milli"
    case 3 => "base"
    case 4 => "kilo"
    case 5 => "mega"
    case _ => ""
  }

  /** `getModeString`: the label of a mode code. */
  function ModeString(mode: u8): (r: String)
    ensures r != [] <==> mode in MeasuringModes
    ensures mode in DcModes ==> |r| > 3 && r[..3] == "DC "
  {
    match mode
    case 1 => "DC mV"
    case 3 => "DC V"
    case 5 => "DC A"
    case 7 => "DC mA"
    case 9 => "DC \U{03BC}A"
    case 10 => "Voltage Detect"
    case 11 => "Resistance"
    case 12 => "Temperature"
    case 13 => "Frequency"
    case 14 => "Capacitance"
    case _ => ""
  }

  /** A mode has a label exactly when it has a unit. */
  lemma LabelIffUnit(mode: u8)
    ensures ModeString(mode) != [] <==> UnitFor(mode) != []
  {
  }

  /** The direct-current labels are "DC " followed by the unit. */
  lemma DcLabelNamesUnit(mode: u8)
    requires mode in DcModes
    ensures ModeString(mode) == "DC " + UnitFor(mode)
  {
  }

  /** Exactly the ranges with a name other than "base" carry a prefix. */
  lemma PrefixIffNamedRange(range: u8)
    ensures PrefixFor(range) != [] <==> RangeString(range) != [] && RangeString(range) != "base"
  {
  }

  // ---------------------------------------------------------------------
  // Updates
  // ---------------------------------------------------------------------

  /** `updateDisplay`: stores the reading and its flags verbatim and derives
      unit and prefix from the codes.  The mode label is left alone. */
  function UpdateDisplay(d: Display, value: real, mode: u8, range: u8,
                         isAuto: bool, isHold: bool, isDelta: bool): (r: Display)
    ensures r.value == value && r.mode == mode && r.range == range
    ensures r.isAuto == isAuto && r.isHold == isHold && r.isDelta == isDelta
    ensures r.unit == UnitFor(mode) && r.prefix == PrefixFor(range)
    ensures r.modeLabel == d.modeLabel && r.statuses == d.statuses && r.config == d.config
  {
    d.(value := value, mode := mode, range := range,
       isAuto := isAuto, isHold := isHold, isDelta := isDelta,
       unit := UnitFor(mode), prefix := PrefixFor(range))
  }

  /** `updateValue`: the reading with caller-supplied prefix and unit. */
  function UpdateValue(d: Display, value: real, prefix: String, unit: String): (r: Display)
    ensures r == d.(value := value, prefix := prefix, unit := unit)
    ensures UnitText(r) == prefix + unit && ShownMode(r) == ShownMode(d)
  {
    d.(value := value, prefix := prefix, unit := unit)
  }

  /** `setMode(wstring)`: an explicit label. */
  function SetModeLabel(d: Display, text: String): (r: Display)
    ensures r == d.(modeLabel := text)
    ensures ShownMode(r) == (if text == [] then ModeString(d.mode) else text)
    ensures UnitText(r) == UnitText(d)
  {
    d.(modeLabel := text)
  }

  /** `setMode(uint8_t)`: the code and the label derived from it. */
  function SetModeCode(d: Display, mode: u8): (r: Display)
    ensures r == d.(mode := mode, modeLabel := ModeString(mode))
  {
    d.(mode := mode, modeLabel := ModeString(mode))
  }

  /** `setRange`: the range code alone.  The prefix is derived only by
      `updateDisplay`, so the painted unit text does not change. */
  function SetRange(d: Display, range: u8): (r: Display)
    ensures r.range == range
    ensures UnitText(r) == UnitText(d) && r.mode == d.mode && r.statuses == d.statuses
  {
    d.(range := range)
  }

  /** After `updateDisplay` with one range and `setRange` with another, the
      painted prefix still belongs to the first range. */
  lemma SetRangeKeepsPrefix(d: Display, value: real, mode: u8, first: u8, second: u8, a: bool, h: bool, t: bool)
    ensures var r := SetRange(UpdateDisplay(d, value, mode, first, a, h, t), second);
      r.range == second && UnitText(r) == PrefixFor(first) + UnitFor(mode)
  {
  }

  /** `setAuto`, `setHold`, `setDelta`: one flag each. */
  function SetAuto(d: Display, on: bool): (r: Display)
    ensures r.isAuto == on && r.isHold == d.isHold && r.isDelta == d.isDelta
    ensures TextColor(r) == TextColor(d)
  {
    d.(isAuto := on)
  }

  function SetHold(d: Display, on: bool): (r: Display)
    ensures r.isHold == on && r.isAuto == d.isAuto && r.isDelta == d.isDelta
    ensures on ==> TextColor(r) == d.config.holdText
  {
    d.(isHold := on)
  }

  function SetDelta(d: Display, on: bool): (r: Display)
    ensures r.isDelta == on && r.isAuto == d.isAuto && r.isHold == d.isHold
    ensures d.isHold ==> TextColor(r) == TextColor(d)
  {
    d.(isDelta := on)
  }

  /** Setting the three flags one by one shows what `updateDisplay` with
      the same flags shows. */
  lemma FlagSettersMatchUpdate(d: Display, value: real, a: bool, h: bool, t: bool)
    ensures var r := SetDelta(SetHold(SetAuto(d, a), h), t);
      var u := UpdateDisplay(d, value, d.mode, d.range, a, h, t);
      && FlagText(r) == FlagText(u)
      && TextColor(r) == TextColor(u)
      && StatusLine(r) == StatusLine(u)
  {
  }

  /** `setConfig`: the colours come from the new configuration. */
  function SetConfig(d: Display, config: DisplayConfig): (r: Display)
    ensures r.config == config
    ensures TextColor(r) in {config.holdText, config.deltaText, config.text}
    ensures StatusLine(r) == StatusLine(d) && ShownMode(r) == ShownMode(d)
  {
    d.(config := config)
  }

  /** The mode text painted: the label, or when it is empty the label of
      the mode code. */
  function ShownMode(d: Display): (r: String)
    ensures d.modeLabel != [] ==> r == d.modeLabel
    ensures d.modeLabel == [] ==> r == ModeString(d.mode)
  {
    if d.modeLabel == [] then ModeString(d.mode) else d.modeLabel
  }

  /** After `setMode(code)` the painted mode text is the code's label,
      whether or not the code has one. */
  lemma SetModeCodeShown(d: Display, mode: u8)
    ensures ShownMode(SetModeCode(d, mode)) == ModeString(mode)
  {
  }

  /** `updateDisplay` changes the painted mode text only when no label is
      set: a label stays even when it no longer names the mode. */
  lemma UpdateDisplayShown(d: Display, value: real, mode: u8, range: u8, a: bool, h: bool, t: bool)
    ensures var r := UpdateDisplay(d, value, mode, range, a, h, t);
      ShownMode(r) == if d.modeLabel == [] then ModeString(mode) else d.modeLabel
  {
  }

  /** The unit text painted beside the value. */
  function UnitText(d: Display): String {
    d.prefix + d.unit
  }

  /** After `updateDisplay` the painted unit text is the range prefix
      followed by the mode unit; an unknown mode shows the prefix alone. */
  lemma UpdateDisplayUnitText(d: Display, value: real, mode: u8, range: u8, a: bool, h: bool, t: bool)
    ensures var r := UpdateDisplay(d, value, mode, range, a, h, t);
      && UnitText(r) == PrefixFor(range) + UnitFor(mode)
      && (mode !in MeasuringModes ==> UnitText(r) == PrefixFor(range))
  {
  }

  // ---------------------------------------------------------------------
  // Colour
  // ---------------------------------------------------------------------

  /** `getTextColor`: the hold colour while holding, else the delta colour
      in delta mode, else the plain text colour. */
  function TextColor(d: Display): (r: Rgb)
    ensures r in {d.config.holdText, d.config.deltaText, d.config.text}
  {
    if d.isHold then d.config.holdText
    else if d.isDelta then d.config.deltaText
    else d.config.text
  }

  /** Hold wins over delta: while holding, the delta flag is irrelevant;
      delta shows only when not holding. */
  lemma ColourPriority(d: Display, delta: bool)
    ensures d.isHold ==> TextColor(d.(isDelta := delta)) == TextColor(d) == d.config.holdText
    ensures !d.isHold && d.isDelta ==> TextColor(d) == d.config.deltaText
    ensures !d.isHold && !d.isDelta ==> TextColor(d) == d.config.text
  {
  }

  /** With the default configuration the three colours differ, so the
      colour tells hold, delta and neither apart. */
  lemma DefaultColoursDistinct(d: Display, e: Display)
    requires d.config == DefaultConfig && e.config == DefaultConfig
    requires TextColor(d) == TextColor(e)
    ensures d.isHold == e.isHold
    ensures !d.isHold ==> d.isDelta == e.isDelta
  {
  }

  // ---------------------------------------------------------------------
  // Custom statuses and the status line
  // ---------------------------------------------------------------------

  /** `addCustomStatus`: set one status, inserting it if new. */
  function AddCustomStatus(d: Display, name: String, active: bool): (r: Display)
    ensures r == d.(statuses := r.statuses)
    ensures ToMap(r.statuses) == ToMap(d.statuses)[name := active]
    ensures Valid(d) ==> Valid(r)
  {
    if Ordered(d.statuses) then InsertOrdered(d.statuses, name, active); d.(statuses := Insert(d.statuses, name, active))
    else d.(statuses := Insert(d.statuses, name, active))
  }

  /** `updateFullDisplay`: the reading, its texts and the whole status map
      are replaced at once. */
  function UpdateFullDisplay(d: Display, value: real, prefix: String, unit: String,
                             text: String, statuses: Entries<bool>): (r: Display)
    requires Ordered(statuses)
    ensures Valid(r)
    ensures ToMap(r.statuses) == ToMap(statuses)
    ensures r == d.(value := value, prefix := prefix, unit := unit, modeLabel := text, statuses := r.statuses)
  {
    d.(value := value, prefix := prefix, unit := unit, modeLabel := text, statuses := statuses)
  }

  /** The names of the active statuses, in map order. */
  function ActiveNames(es: Entries<bool>): (r: seq<String>)
    ensures |r| <= |es|
    ensures forall n :: n in r ==> n in KeySet(es)
    decreases |es|
  {
    if |es| == 0 then []
    else
      var rest := ActiveNames(es[1..]);
      assert KeySet(es[1..]) <= KeySet(es) by {
        forall n | n in KeySet(es[1..]) ensures n in KeySet(es) {
          var i :| 0 <= i < |es[1..]| && es[1..][i].0 == n;
          assert es[i + 1].0 == n;
        }
      }
      assert es[0].0 in KeySet(es);
      if es[0].1 then [es[0].0] + rest else rest
  }

  /** Every name followed by one space. */
  function Words(names: seq<String>): String
    decreases |names|
  {
    if |names| == 0 then [] else names[0] + " " + Words(names[1..])
  }

  /** The flag words, in the fixed order AUTO, HOLD, DELTA. */
  function FlagText(d: Display): String {
    (if d.isAuto then "AUTO " else "") + (if d.isHold then "HOLD " else "") + (if d.isDelta then "DELTA " else "")
  }

  /** The status line painted in the corner. */
  function StatusLine(d: Display): String {
    FlagText(d) + Words(ActiveNames(d.statuses))
  }

  /** A status name is on the line exactly when the map holds it as active. */
  lemma {:induction false} ActiveNamesIff(es: Entries<bool>, n: String)
    requires Ordered(es)
    ensures n in ActiveNames(es) <==> n in ToMap(es) && ToMap(es)[n]
    decreases |es|
  {
    if |es| > 0 {
      var rest := es[1..];
      assert Ordered(rest);
      ActiveNamesIff(rest, n);
      if n == es[0].0 {
        assert n !in KeySet(rest) by {
          forall i | 0 <= i < |rest| ensures rest[i].0 != n {
            assert rest[i] == es[i + 1];
            LessIrreflexive(n);
          }
        }
      }
    }
  }

  /** The active names come in strictly ascending order. */
  lemma {:induction false} ActiveNamesAscending(es: Entries<bool>)
    requires Ordered(es)
    ensures forall i, j :: 0 <= i < j < |ActiveNames(es)| ==> Less(ActiveNames(es)[i], ActiveNames(es)[j])
    decreases |es|
  {
    if |es| > 0 {
      var rest := es[1..];
      assert Ordered(rest);
      ActiveNamesAscending(rest);
      if es[0].1 {
        var r := ActiveNames(es);
        var t := ActiveNames(rest);
        assert r == [es[0].0] + t;
        forall j | 0 < j < |r| ensures Less(r[0], r[j]) {
          assert r[j] == t[j - 1];
          assert t[j - 1] in KeySet(rest);
          var k :| 0 <= k < |rest| && rest[k].0 == t[j - 1];
          assert rest[k] == es[k + 1];
        }
      }
    }
  }

  /** Setting a status inactive that was not active leaves the active
      names as they were. */
  lemma {:induction false} InsertInactive(es: Entries<bool>, k: String)
    requires forall i :: 0 <= i < |es| && es[i].0 == k ==> !es[i].1
    ensures ActiveNames(Insert(es, k, false)) == ActiveNames(es)
    decreases |es|
  {
    if |es| > 0 && es[0].0 != k && !Less(k, es[0].0) {
      var r := Insert(es, k, false);
      assert r[0] == es[0] && r[1..] == Insert(es[1..], k, false);
      forall i | 0 <= i < |es[1..]| && es[1..][i].0 == k ensures !es[1..][i].1 {
        assert es[1..][i] == es[i + 1];
      }
      InsertInactive(es[1..], k);
    } else if |es| > 0 && es[0].0 == k {
      var r := Insert(es, k, false);
      assert r[1..] == es[1..];
    } else if |es| > 0 {
      var r := Insert(es, k, false);
      assert r[1..] == es;
    }
  }

  /** Listing the active names of two stretches gives the two lists. */
  lemma {:induction false} ActiveNamesAppend(a: Entries<bool>, b: Entries<bool>)
    ensures ActiveNames(a + b) == ActiveNames(a) + ActiveNames(b)
    decreases |a|
  {
    if |a| == 0 {
      assert a + b == b;
    } else {
      assert (a + b)[0] == a[0];
      assert (a + b)[1..] == a[1..] + b;
      ActiveNamesAppend(a[1..], b);
    }
  }

  /** Words of two lists of names, one after the other. */
  lemma {:induction false} WordsAppend(a: seq<String>, b: seq<String>)
    ensures Words(a + b) == Words(a) + Words(b)
    decreases |a|
  {
    if |a| == 0 {
      assert a + b == b;
    } else {
      assert (a + b)[0] == a[0];
      assert (a + b)[1..] == a[1..] + b;
      WordsAppend(a[1..], b);
    }
  }

  /** Adding an inactive status that was not active leaves the status line
      as it was. */
  lemma AddInactiveKeepsLine(d: Display, name: String)
    requires forall i :: 0 <= i < |d.statuses| && d.statuses[i].0 == name ==> !d.statuses[i].1
    ensures StatusLine(AddCustomStatus(d, name, false)) == StatusLine(d)
  {
    InsertInactive(d.statuses, name);
  }

  /** Activating a status whose name sorts after every present one appends
      that name and a space to the line. */
  lemma AddGreatestActive(d: Display, name: String)
    requires forall i :: 0 <= i < |d.statuses| ==> Less(d.statuses[i].0, name)
    ensures StatusLine(AddCustomStatus(d, name, true)) == StatusLine(d) + name + " "
  {
    var r := AddCustomStatus(d, name, true);
    var names := ActiveNames(d.statuses);
    assert ActiveNames(r.statuses) == names + [name] by {
      InsertGreatest(d.statuses, name, true);
      assert r.statuses == d.statuses + [(name, true)];
      ActiveNamesAppend(d.statuses, [(name, true)]);
      assert ActiveNames([(name, true)]) == [name];
    }
    assert Words(names + [name]) == Words(names) + (name + " ") by {
      WordsAppend(names, [name]);
      assert Words([name]) == name + " ";
    }
    var f := FlagText(d);
    assert FlagText(r) == f;
    var w := Words(names);
    assert StatusLine(r) == f + (w + (name + " "));
    assert f + (w + (name + " ")) == (f + w) + name + " ";
  }

  /** The line is empty exactly when no flag is set and no status is active. */
  lemma StatusLineEmpty(d: Display)
    ensures StatusLine(d) == [] <==> !d.isAuto && !d.isHold && !d.isDelta && ActiveNames(d.statuses) == []
  {
    var names := ActiveNames(d.statuses);
    if names != [] {
      assert |Words(names)| > 0;
    }
  }
}
