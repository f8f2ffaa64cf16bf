/** extract_helioscope_data once the report text has been matched: the component records,
    the system-loss filter, the choice of the primary inverter, strings and module records,
    and what the call stores in the session before it returns the extracted data or None. */
module Helioscope {

  import opened Text

  datatype Option<T> = None | Some(value: T)

  // ---------------------------------------------------------------------------
  // Components

  /** The five groups of one match of the component-line pattern. */
  datatype ComponentMatch = ComponentMatch(component: string, description: string, count: string, value: string, unit: string)

  /** One entry of `components`: the groups, each stripped. */
  datatype Component = Component(component: string, description: string, count: string, value: string, unit: string)

  /** What the pattern guarantees of a count and a value: `\d+` and `[\d.,]+`. */
  predicate Shaped(count: string, value: string)
  {
    |count| > 0 && IsDigits(count) &&
    |value| > 0 && (forall k :: 0 <= k < |value| ==> IsValueChar(value[k]))
  }

  predicate MatchShaped(m: ComponentMatch)
  {
    Shaped(m.count, m.value)
  }

  predicate ComponentShaped(c: Component)
  {
    Shaped(c.count, c.value)
  }

  predicate AllShaped(cs: seq<Component>)
  {
    forall i :: 0 <= i < |cs| ==> ComponentShaped(cs[i])
  }

  /** One record: every group stripped. */
  function ToComponent(m: ComponentMatch): Component
  {
    Component(Strip(m.component), Strip(m.description), Strip(m.count), Strip(m.value), Strip(m.unit))
  }

  /** `components` as the loop over the matches builds it. */
  function ComponentsOf(ms: seq<ComponentMatch>): seq<Component>
  {
    seq(|ms|, i requires 0 <= i < |ms| => ToComponent(ms[i]))
  }

  /** The loop that appends one stripped record per match: one record per match, in match
      order. */
  method BuildComponents(ms: seq<ComponentMatch>) returns (cs: seq<Component>)
    ensures |cs| == |ms|
    ensures forall i :: 0 <= i < |ms| ==> cs[i] == ToComponent(ms[i])
    ensures cs == ComponentsOf(ms)
  {
    cs := [];
    for i := 0 to |ms|
      invariant |cs| == i
      invariant forall j :: 0 <= j < i ==> cs[j] == ToComponent(ms[j])
    {
      cs := cs + [ToComponent(ms[i])];
    }
  }

  /** Stripping leaves a count and a value the pattern matched as they were. */
  lemma StripShaped(m: ComponentMatch)
    requires MatchShaped(m)
    ensures ToComponent(m).count == m.count && ToComponent(m).value == m.value
    ensures ComponentShaped(ToComponent(m))
  {
    StripKeeps(m.count);
    StripKeeps(m.value);
  }

  /** Every record built from matches of the pattern's shape has that shape. */
  lemma ComponentsShaped(ms: seq<ComponentMatch>)
    requires forall i :: 0 <= i < |ms| ==> MatchShaped(ms[i])
    ensures AllShaped(ComponentsOf(ms))
  {
    forall i | 0 <= i < |ms| ensures ComponentShaped(ComponentsOf(ms)[i]) {
      StripShaped(ms[i]);
    }
  }

  // ---------------------------------------------------------------------------
  // System losses

  /** The two groups of one match of the loss pattern: a label and a percentage. */
  datatype LossMatch = LossMatch(name: string, value: string)

  /** One entry of "SYSTEM LOSSES". */
  datatype Loss = Loss(lossType: string, percent: string)

  /** The keyword test: the lower-cased label mentions a loss or a degradation, so a label
      shorter than "loss" never passes. */
  predicate IsLoss(m: LossMatch)
    ensures IsLoss(m) ==> |m.name| >= 4
  {
    Contains(Lower(m.name), "loss") || Contains(Lower(m.name), "degradation")
  }

  /** One record: the stripped label, and the value followed by a percent sign. */
  function ToLoss(m: LossMatch): (l: Loss)
    ensures |l.percent| == |m.value| + 1 && l.percent[..|m.value|] == m.value && l.percent[|m.value|] == '%'
    ensures |l.lossType| <= |m.name|
  {
    Loss(Strip(m.name), m.value + "%")
  }

  /** "SYSTEM LOSSES" for the matches `ms`: at most one record per match, each a percentage. */
  function SystemLosses(ms: seq<LossMatch>): (ls: seq<Loss>)
    ensures |ls| <= |ms|
    ensures forall i :: 0 <= i < |ls| ==> |ls[i].percent| > 0 && ls[i].percent[|ls[i].percent| - 1] == '%'
  {
    if ms == [] then []
    else SystemLosses(ms[..|ms| - 1]) + (if IsLoss(ms[|ms| - 1]) then [ToLoss(ms[|ms| - 1])] else [])
  }

  /** The loop that appends a record for every match whose label passes the keyword test. */
  method FilterLosses(ms: seq<LossMatch>) returns (losses: seq<Loss>)
    ensures losses == SystemLosses(ms)
  {
    losses := [];
    for i := 0 to |ms|
      invariant losses == SystemLosses(ms[..i])
    {
      assert ms[..i + 1][..i] == ms[..i];
      if IsLoss(ms[i]) {
        losses := losses + [ToLoss(ms[i])];
      }
    }
    assert ms[..|ms|] == ms;
  }

  /** The filter works match by match: the records for two runs of matches are the records of
      the first run followed by those of the second, so discovery order and repetitions are
      kept. */
  lemma {:induction false} LossesAppend(a: seq<LossMatch>, b: seq<LossMatch>)
    ensures SystemLosses(a + b) == SystemLosses(a) + SystemLosses(b)
    decreases |b|
  {
    if b == [] {
      assert a + b == a;
    } else {
      var b' := b[..|b| - 1];
      assert (a + b)[..|a + b| - 1] == a + b';
      LossesAppend(a, b');
    }
  }

  /** A record is present exactly when some match passes the keyword test and makes it. */
  lemma LossesMembers(ms: seq<LossMatch>, l: Loss)
    ensures l in SystemLosses(ms) <==> exists i :: 0 <= i < |ms| && Makes(ms[i], l)
  {
    if l in SystemLosses(ms) {
      var i := LossSource(ms, l);
    }
    if exists i :: 0 <= i < |ms| && Makes(ms[i], l) {
      var i :| 0 <= i < |ms| && Makes(ms[i], l);
      LossKept(ms, i);
    }
  }

  /** Every record comes from a match that makes it. */
  lemma {:induction false} LossSource(ms: seq<LossMatch>, l: Loss) returns (i: nat)
    requires l in SystemLosses(ms)
    ensures i < |ms| && Makes(ms[i], l)
  {
    var front, m := ms[..|ms| - 1], ms[|ms| - 1];
    var tail := if IsLoss(m) then [ToLoss(m)] else [];
    assert SystemLosses(ms) == SystemLosses(front) + tail;
    if l in SystemLosses(front) {
      i := LossSource(front, l);
      assert ms[i] == front[i];
    } else {
      i := |ms| - 1;
    }
  }

  /** Every match that passes the keyword test has its record in the list. */
  lemma {:induction false} LossKept(ms: seq<LossMatch>, i: nat)
    requires i < |ms| && IsLoss(ms[i])
    ensures ToLoss(ms[i]) in SystemLosses(ms)
  {
    var front, m := ms[..|ms| - 1], ms[|ms| - 1];
    var tail := if IsLoss(m) then [ToLoss(m)] else [];
    assert SystemLosses(ms) == SystemLosses(front) + tail;
    if i < |front| {
      assert front[i] == ms[i];
      LossKept(front, i);
    } else {
      assert tail == [ToLoss(ms[i])];
    }
  }

  /** Match `m` passes the keyword test and makes the record `l`. */
  predicate Makes(m: LossMatch, l: Loss)
  {
    IsLoss(m) && ToLoss(m) == l
  }

  /** The test ignores case: a label holding "LOSS", "Loss" or any other casing of either
      keyword passes. */
  lemma KeywordAnyCase(m: LossMatch, key: string)
    requires Lower(key) == "loss" || Lower(key) == "degradation"
    requires Contains(m.name, key)
    ensures IsLoss(m)
  {
    LowerContains(m.name, key);
  }

  /** A single match gives one record when it passes the keyword test and none otherwise. */
  lemma LossesSingle(m: LossMatch)
    ensures SystemLosses([m]) == if IsLoss(m) then [ToLoss(m)] else []
  {
    assert [m][..0] == [];
  }

  /** Without a match passing the test the list is empty, and it never has more records than
      there were matches. */
  lemma {:induction false} LossesLength(ms: seq<LossMatch>)
    ensures |SystemLosses(ms)| <= |ms|
    ensures (forall i :: 0 <= i < |ms| ==> !IsLoss(ms[i])) ==> SystemLosses(ms) == []
    ensures (forall i :: 0 <= i < |ms| ==> IsLoss(ms[i])) ==> |SystemLosses(ms)| == |ms|
  {
    if ms != [] {
      LossesLength(ms[..|ms| - 1]);
    }
  }

  // ---------------------------------------------------------------------------
  // Primary records

  /** The label test of the primary-record selection. */
  predicate HasLabel(c: Component, key: string)
  {
    Contains(Lower(c.component), key)
  }

  /** `next((c for c in components if key in c["Component"].lower()), None)`, as a position:
      the first component whose label contains `key`, or None when none does. */
  function FirstIndex(cs: seq<Component>, key: string): (r: Option<nat>)
    ensures r.None? <==> forall i :: 0 <= i < |cs| ==> !HasLabel(cs[i], key)
    ensures r.Some? ==> r.value < |cs| && HasLabel(cs[r.value], key)
    ensures r.Some? ==> forall i :: 0 <= i < r.value ==> !HasLabel(cs[i], key)
  {
    if cs == [] then None
    else if HasLabel(cs[0], key) then Some(0)
    else
      match FirstIndex(cs[1..], key)
      case None =>
        assert forall i :: 1 <= i < |cs| ==> cs[i] == cs[1..][i - 1];
        None
      case Some(j) =>
        assert forall i :: 1 <= i <= j + 1 ==> cs[i] == cs[1..][i - 1];
        Some(j + 1)
  }

  /** The first component whose label contains `key`, or None; it has the shape the pattern
      guarantees when every component has. */
  function FirstWith(cs: seq<Component>, key: string): (r: Option<Component>)
    ensures AllShaped(cs) && r.Some? ==> ComponentShaped(r.value)
  {
    match FirstIndex(cs, key)
    case None => None
    case Some(i) => Some(cs[i])
  }

  /** `st.session_state.component_details`. */
  datatype Details = Details(inverter: Option<Component>, strings: Option<Component>, pvModule: Option<Component>)

  function PrimaryRecords(cs: seq<Component>): (d: Details)
    ensures AllShaped(cs) ==> DetailsShaped(d)
  {
    Details(FirstWith(cs, "inverter"), FirstWith(cs, "string"), FirstWith(cs, "module"))
  }

  // ---------------------------------------------------------------------------
  // Session state and the extraction

  /** `st.session_state.system_summary_data`. */
  datatype Summary = Summary(
    dcSystemSize: string, acSystemSize: string,
    inverterName: string, inverterCount: string,
    moduleName: string, moduleCount: string,
    racking: string, rackingCount: string)

  /** `st.session_state.inverter_schedule_data`; `kw` is the value text `float()` accepted. */
  datatype InverterSchedule = InverterSchedule(numRows: nat, manufacturerModel: string, kw: string)

  /** `st.session_state.string_table_data`; `noOfMppt` is None when the dictionary has no
      "no_of_mppt" key. */
  datatype StringTableData = StringTableData(numInverters: nat, numPanels: nat, noOfString: nat, noOfMppt: Option<nat>)

  /** The session entries extract_helioscope_data writes. */
  datatype Session = Session(
    details: Option<Details>, summary: Summary,
    schedule: InverterSchedule, stringTable: StringTableData)

  /** What the `try` block ends on when it raises: a missing inverter record for the summary
      (a `TypeError`), a value `float()` rejects (a `ValueError`), a missing module record for
      the string table (a `TypeError`) and a zero inverter count as divisor (a
      `ZeroDivisionError`). */
  datatype Failure = MissingInverter | BadValue | MissingModule | ZeroInverters

  /** The dictionary the call returns: the loss records and the component records. */
  datatype Report = Report(losses: seq<Loss>, components: seq<Component>)

  /** `Failed` is the `None` the call returns after `st.error`. */
  datatype Outcome = Extracted(report: Report) | Failed(cause: Failure)

  datatype Extraction = Extraction(session: Session, outcome: Outcome)

  /** Python's `a // b` for a count `a` and a positive `b`: the number of whole `b`s in `a`. */
  function FloorDiv(a: nat, b: nat): (q: nat)
    requires b > 0
    ensures b * q <= a < b * (q + 1)
  {
    a / b
  }

  function SummaryOf(pvModule: Component, inverter: Component): Summary
  {
    Summary(pvModule.value + " kW", inverter.value + " kW",
            inverter.description, inverter.count,
            pvModule.description, pvModule.count, "", "")
  }

  /** Every primary record that was found has the shape the pattern guarantees. */
  predicate DetailsShaped(d: Details)
  {
    (d.inverter.Some? ==> ComponentShaped(d.inverter.value)) &&
    (d.strings.Some? ==> ComponentShaped(d.strings.value)) &&
    (d.pvModule.Some? ==> ComponentShaped(d.pvModule.value))
  }

  /** One of the three `if` blocks after the primary records are stored: it either runs to its
      end, leaving `session`, or raises in the middle, leaving `session` as it was then. */
  datatype Step = Stored(session: Session) | Raised(session: Session, cause: Failure)

  /** The summary block: replace the summary when a module is found, raising when the inverter
      record it also reads is missing. Nothing else is written. */
  function StoreSummary(s: Session, d: Details): (r: Step)
    ensures r.session.details == s.details && r.session.schedule == s.schedule && r.session.stringTable == s.stringTable
    ensures r.Raised? ==> r.session == s
    ensures r.Raised? <==> d.pvModule.Some? && d.inverter.None?
    ensures r.Raised? ==> r.cause == MissingInverter
    ensures r.Stored? && d.pvModule.Some? ==> r.session.summary == SummaryOf(d.pvModule.value, d.inverter.value)
    ensures d.pvModule.None? ==> r == Stored(s)
  {
    if d.pvModule.None? then Stored(s)
    else if d.inverter.None? then Raised(s, MissingInverter)
    else Stored(s.(summary := SummaryOf(d.pvModule.value, d.inverter.value)))
  }

  /** The inverter-schedule block: replace the schedule when an inverter is found, raising when
      `float()` rejects its value. Nothing else is written. */
  function StoreSchedule(s: Session, d: Details): (r: Step)
    requires DetailsShaped(d)
    ensures r.session.details == s.details && r.session.summary == s.summary && r.session.stringTable == s.stringTable
    ensures r.Raised? ==> r.session == s
    ensures r.Raised? <==> d.inverter.Some? && !FloatParses(d.inverter.value.value)
    ensures r.Raised? ==> r.cause == BadValue
    ensures r.Stored? && d.inverter.Some? ==>
      var inv := d.inverter.value;
      r.session.schedule == InverterSchedule(DigitsValue(inv.count), inv.description, inv.value)
    ensures d.inverter.None? ==> r == Stored(s)
  {
    if d.inverter.None? then Stored(s)
    else
      var inv := d.inverter.value;
      if !FloatParses(inv.value) then Raised(s, BadValue)
      else Stored(s.(schedule := InverterSchedule(DigitsValue(inv.count), inv.description, inv.value)))
  }

  /** `t` is the string-table entry for the given counts: the inverter count, which is not
      zero, the panel count, the whole strings per inverter, and no "no_of_mppt" entry. */
  predicate TableFrom(t: StringTableData, inverters: nat, panels: nat, strings: nat)
  {
    t.numInverters == inverters > 0 && t.numPanels == panels &&
    t.numInverters * t.noOfString <= strings < t.numInverters * (t.noOfString + 1) &&
    t.noOfMppt.None?
  }

  /** The string-table block, run when strings and an inverter are found: raise when the
      module record is missing or the inverter count is zero, otherwise replace the whole
      string-table entry by the counts and the floor of strings over inverters. Nothing else
      is written. */
  function StoreStringTable(s: Session, d: Details): (r: Step)
    requires DetailsShaped(d)
    ensures r.session.details == s.details && r.session.summary == s.summary && r.session.schedule == s.schedule
    ensures r.Raised? ==> r.session == s
    ensures r.Raised? <==> d.strings.Some? && d.inverter.Some? &&
                           (d.pvModule.None? || DigitsValue(d.inverter.value.count) == 0)
    ensures r.Raised? ==> r.cause == (if d.pvModule.None? then MissingModule else ZeroInverters)
    ensures r.Stored? && d.strings.Some? && d.inverter.Some? ==>
      d.pvModule.Some? &&
      TableFrom(r.session.stringTable, DigitsValue(d.inverter.value.count),
                DigitsValue(d.pvModule.value.count), DigitsValue(d.strings.value.count))
    ensures !(d.strings.Some? && d.inverter.Some?) ==> r == Stored(s)
  {
    if d.strings.None? || d.inverter.None? then Stored(s)
    else
      var inverters := DigitsValue(d.inverter.value.count);
      if d.pvModule.None? then Raised(s, MissingModule)
      else if inverters == 0 then Raised(s, ZeroInverters)
      else
        var table := StringTableData(inverters, DigitsValue(d.pvModule.value.count),
                                     FloorDiv(DigitsValue(d.strings.value.count), inverters), None);
        Stored(s.(stringTable := table))
  }

  /** The part of extract_helioscope_data after the matches are collected: store the primary
      records, then run the summary, schedule and string-table blocks in that order, stopping
      at the first that raises. */
  function Store(s: Session, components: seq<Component>, losses: seq<Loss>): (r: Extraction)
    requires AllShaped(components)
    ensures r.session.details == Some(PrimaryRecords(components))
    ensures r.outcome.Extracted? ==> r.outcome.report == Report(losses, components)
  {
    var d := PrimaryRecords(components);
    match StoreSummary(s.(details := Some(d)), d)
    case Raised(s1, e) => Extraction(s1, Failed(e))
    case Stored(s1) =>
      match StoreSchedule(s1, d)
      case Raised(s2, e) => Extraction(s2, Failed(e))
      case Stored(s2) =>
        match StoreStringTable(s2, d)
        case Raised(s3, e) => Extraction(s3, Failed(e))
        case Stored(s3) => Extraction(s3, Extracted(Report(losses, components)))
  }

  /** extract_helioscope_data on the matches of a report's text. */
  method ExtractHelioscopeData(s: Session, componentMatches: seq<ComponentMatch>, lossMatches: seq<LossMatch>)
    returns (r: Extraction)
    requires forall i :: 0 <= i < |componentMatches| ==> MatchShaped(componentMatches[i])
    ensures AllShaped(ComponentsOf(componentMatches))
    ensures r == Store(s, ComponentsOf(componentMatches), SystemLosses(lossMatches))
  {
    var components := BuildComponents(componentMatches);
    var losses := FilterLosses(lossMatches);
    ComponentsShaped(componentMatches);
    var d := Details(FirstWith(components, "inverter"), FirstWith(components, "string"), FirstWith(components, "module"));
    var session := s.(details := Some(d));
    if d.pvModule.Some? {
      if d.inverter.None? {
        return Extraction(session, Failed(MissingInverter));
      }
      session := session.(summary := SummaryOf(d.pvModule.value, d.inverter.value));
    }
    if d.inverter.Some? {
      var inv := d.inverter.value;
      if !FloatParses(inv.value) {
        return Extraction(session, Failed(BadValue));
      }
      session := session.(schedule := InverterSchedule(DigitsValue(inv.count), inv.description, inv.value));
    }
    if d.strings.Some? && d.inverter.Some? {
      var inverters := DigitsValue(d.inverter.value.count);
      if d.pvModule.None? {
        return Extraction(session, Failed(MissingModule));
      }
      var panels := DigitsValue(d.pvModule.value.count);
      if inverters == 0 {
        return Extraction(session, Failed(ZeroInverters));
      }
      var strings := FloorDiv(DigitsValue(d.strings.value.count), inverters);
      session := session.(stringTable := StringTableData(inverters, panels, strings, None));
    }
    r := Extraction(session, Extracted(Report(losses, components)));
  }

  // ---------------------------------------------------------------------------
  // Properties of the extraction

  /** The call returns data exactly when no statement raises: a module record comes with an
      inverter record, the inverter's value is a number, and when strings and an inverter are
      found there is also a module and the inverter count is not zero. The data returned are
      the loss records and the component records. */
  lemma ExtractedIff(s: Session, components: seq<Component>, losses: seq<Loss>)
    requires AllShaped(components)
    ensures var d := PrimaryRecords(components);
      var r := Store(s, components, losses);
      r.outcome.Extracted? <==>
        (d.pvModule.Some? ==> d.inverter.Some?) &&
        (d.inverter.Some? ==> FloatParses(d.inverter.value.value)) &&
        (d.strings.Some? && d.inverter.Some? ==> d.pvModule.Some? && DigitsValue(d.inverter.value.count) > 0)
    ensures Store(s, components, losses).outcome.Extracted? ==>
      Store(s, components, losses).outcome.report == Report(losses, components)
  {
  }

  /** Strings and an inverter found but no module: the call returns None, and the summary and
      the string-table data are untouched. The component details and, when the inverter's
      value is a number, the inverter schedule are already stored. */
  lemma MissingModuleFails(s: Session, components: seq<Component>, losses: seq<Loss>)
    requires AllShaped(components)
    requires var d := PrimaryRecords(components);
      d.strings.Some? && d.inverter.Some? && d.pvModule.None?
    ensures Store(s, components, losses).outcome.Failed?
    ensures Store(s, components, losses).session.stringTable == s.stringTable
    ensures Store(s, components, losses).session.summary == s.summary
    ensures var inv := PrimaryRecords(components).inverter.value;
      FloatParses(inv.value) ==>
        Store(s, components, losses).outcome == Failed(MissingModule) &&
        Store(s, components, losses).session.schedule == InverterSchedule(DigitsValue(inv.count), inv.description, inv.value)
    ensures var inv := PrimaryRecords(components).inverter.value;
      !FloatParses(inv.value) ==>
        Store(s, components, losses).outcome == Failed(BadValue) && Store(s, components, losses).session.schedule == s.schedule
  {
  }

  /** A found inverter count of zero makes the division raise: None, with the string-table data
      unchanged. */
  lemma ZeroInvertersFails(s: Session, components: seq<Component>, losses: seq<Loss>)
    requires AllShaped(components)
    requires var d := PrimaryRecords(components);
      d.strings.Some? && d.inverter.Some? && d.pvModule.Some? &&
      FloatParses(d.inverter.value.value) && DigitsValue(d.inverter.value.count) == 0
    ensures Store(s, components, losses).outcome == Failed(ZeroInverters)
    ensures Store(s, components, losses).session.stringTable == s.stringTable
  {
  }

  /** When the call returns data after finding strings and an inverter, the string-table data
      are replaced: the counts of the primary records, the strings per inverter as the floor
      of strings over inverters, and no "no_of_mppt" entry. */
  lemma StringTableReplaced(s: Session, components: seq<Component>, losses: seq<Loss>)
    requires AllShaped(components)
    requires var d := PrimaryRecords(components);
      Store(s, components, losses).outcome.Extracted? && d.strings.Some? && d.inverter.Some?
    ensures var d := PrimaryRecords(components);
      d.pvModule.Some? &&
      TableFrom(Store(s, components, losses).session.stringTable, DigitsValue(d.inverter.value.count),
                DigitsValue(d.pvModule.value.count), DigitsValue(d.strings.value.count))
  {
    var d := PrimaryRecords(components);
    var step1 := StoreSummary(s.(details := Some(d)), d);
    var step2 := StoreSchedule(step1.session, d);
    var step3 := StoreStringTable(step2.session, d);
    assert step3.session == Store(s, components, losses).session;
  }

  /** In every other case the string-table data keep their old value. */
  lemma StringTableKept(s: Session, components: seq<Component>, losses: seq<Loss>)
    requires AllShaped(components)
    requires var d := PrimaryRecords(components);
      !(Store(s, components, losses).outcome.Extracted? && d.strings.Some? && d.inverter.Some?)
    ensures Store(s, components, losses).session.stringTable == s.stringTable
  {
    var d := PrimaryRecords(components);
    var step1 := StoreSummary(s.(details := Some(d)), d);
    if step1.Stored? {
      var step2 := StoreSchedule(step1.session, d);
      if step2.Stored? {
        var step3 := StoreStringTable(step2.session, d);
      }
    }
  }

  /** The summary is replaced exactly when a module and an inverter are found, and then it
      shows their values in kW, their descriptions and counts, and empty racking fields. */
  lemma SummaryStored(s: Session, components: seq<Component>, losses: seq<Loss>)
    requires AllShaped(components)
    ensures var d := PrimaryRecords(components);
      var summary := Store(s, components, losses).session.summary;
      if d.pvModule.Some? && d.inverter.Some? then
        summary.dcSystemSize == d.pvModule.value.value + " kW" &&
        summary.acSystemSize == d.inverter.value.value + " kW" &&
        summary.inverterName == d.inverter.value.description &&
        summary.inverterCount == d.inverter.value.count &&
        summary.moduleName == d.pvModule.value.description &&
        summary.moduleCount == d.pvModule.value.count &&
        summary.racking == "" && summary.rackingCount == ""
      else summary == s.summary
  {
  }

  /** The inverter schedule is replaced exactly when an inverter is found whose value is a
      number, with the inverter's count as the number of rows. */
  lemma ScheduleStored(s: Session, components: seq<Component>, losses: seq<Loss>)
    requires AllShaped(components)
    ensures var d := PrimaryRecords(components);
      var schedule := Store(s, components, losses).session.schedule;
      if d.inverter.Some? && FloatParses(d.inverter.value.value) then
        schedule == InverterSchedule(DigitsValue(d.inverter.value.count), d.inverter.value.description, d.inverter.value.value)
      else schedule == s.schedule
  {
  }
}
