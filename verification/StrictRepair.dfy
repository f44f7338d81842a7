// The strict rewrite of one translation unit (pipeline_adapter.rs,
// TranslationState and translate_unit): a primary translation, at most one
// repair, and the decision what may be shown. The model's outcomes, the
// validator and the anchoring of names are arbitrary.
module StrictRepair {
  import opened Machine
  import opened Text
  import opened Sorting
  import opened LruCache

  datatype Outcome = Outcome(text: Option<string>, issues: seq<string>, stopped: bool) {
    predicate IsValid() {
      stopped && issues == [] && text.Some? && !IsBlank(text.value)
    }
  }

  datatype Report = Report(normalizedText: string, strictlyValid: bool, violations: seq<string>)

  datatype RepairState = NotNeeded | Pending | Accepted | Rejected

  datatype Translation = Translation(base: string, displayed: string, report: Report, repairState: RepairState)

  datatype Result = Shown(value: Translation) | Withheld(reason: string)

  type Validator = string -> Report

  function NonemptyTranslation(text: Option<string>): Option<string> {
    if text.None? || Trim(text.value) == "" then None else Some(Trim(text.value))
  }

  predicate RequiresRepair(report: Report, strict: bool) {
    strict && !report.strictlyValid
  }

  // ---- Problems named by a validation report ----

  /** The distinct non-blank violations, in the order they are reported. */
  function NamedViolations(violations: seq<string>): (named: seq<string>)
    ensures forall t | t in named :: t != ""
    ensures named == [] <==> forall v | v in violations :: IsBlank(v)
    decreases |violations|
  {
    if violations == [] then []
    else
      var front, last := NamedViolations(violations[..|violations| - 1]), Trim(violations[|violations| - 1]);
      assert forall v :: v in violations <==> v in violations[..|violations| - 1] || v == violations[|violations| - 1];
      assert last == "" <==> IsBlank(violations[|violations| - 1]);
      if last == "" || last in front then front else front + [last]
  }

  function Joined(tokens: seq<string>): string {
    if tokens == [] then ""
    else if |tokens| == 1 then "`" + tokens[0] + "`"
    else "`" + tokens[0] + "`, " + Joined(tokens[1..])
  }

  function Guidance(named: seq<string>): string {
    var sorted := Sort(named, StringAtMost);
    "rewrite these detected above-level spans with contextually natural easier words and grammar: "
    + Joined(if |sorted| <= 16 then sorted else sorted[..16])
    + "; never substitute an unrelated dictionary word"
  }

  function WithValidationProblems(problems: seq<string>, report: Report): seq<string> {
    var named := NamedViolations(report.violations);
    if named == [] || Guidance(named) in problems then problems else problems + [Guidance(named)]
  }

  lemma ProblemsAreNamed(problems: seq<string>, report: Report)
    ensures WithValidationProblems(problems, report) == [] <==>
            problems == [] && forall v | v in report.violations :: IsBlank(v)
  {
    hide Guidance, IsBlank;
  }

  /** A report that asks for a repair and names something to repair. */
  predicate NamesARepair(report: Report, strict: bool) {
    RequiresRepair(report, strict) && exists v | v in report.violations :: !IsBlank(v)
  }

  // ---- The repair state ----

  class TranslationState {
    var base: Option<string>
    var displayed: Option<string>
    var latestRejected: Option<string>
    var latestRejectedReport: Option<Report>
    var report: Option<Report>
    var problems: seq<string>
    var structurallyValid: bool
    const strict: bool
    var repairState: RepairState

    constructor FromInitial(outcome: Outcome, validate: Validator, strict: bool)
      ensures this.strict == strict && repairState == NotNeeded
      ensures structurallyValid == outcome.IsValid()
      ensures base == NonemptyTranslation(outcome.text)
      ensures report == if base.Some? then Some(validate(base.value)) else None
      ensures problems == [] <==> outcome.issues == [] && (report.Some? ==> !NamesARepair(report.value, strict))
      ensures displayed == if problems == [] && report.Some? then Some(report.value.normalizedText) else None
    {
      hide IsBlank, WithValidationProblems, NonemptyTranslation;
      var problems := outcome.issues;
      var base := NonemptyTranslation(outcome.text);
      var report := if base.Some? then Some(validate(base.value)) else None;
      if report.Some? && RequiresRepair(report.value, strict) {
        ProblemsAreNamed(problems, report.value);
        problems := WithValidationProblems(problems, report.value);
      }
      this.strict, this.repairState := strict, NotNeeded;
      this.structurallyValid := outcome.IsValid();
      this.base, this.report, this.problems := base, report, problems;
      this.displayed := if problems == [] && report.Some? then Some(report.value.normalizedText) else None;
      this.latestRejected, this.latestRejectedReport := None, None;
    }

    predicate CanPublish()
      reads this
    {
      structurallyValid && base.Some? && report.Some?
    }

    method ApplyRepair(outcome: Outcome, validate: Validator) returns (accepted: bool)
      modifies this
      ensures accepted <==> outcome.IsValid() && !NamesARepair(validate(Trim(outcome.text.value)), strict)
      ensures accepted ==>
                && problems == [] && repairState == Accepted && CanPublish()
                && report == Some(validate(Trim(outcome.text.value)))
                && displayed == Some(report.value.normalizedText)
                && base == if old(CanPublish()) then old(base) else Some(Trim(outcome.text.value))
      ensures !accepted ==> repairState == Rejected
    {
      var problems := outcome.issues;
      var valid := outcome.IsValid();
      var repaired := if valid then NonemptyTranslation(outcome.text) else None;
      var report := if repaired.Some? then Some(validate(repaired.value)) else None;
      if report.Some? && RequiresRepair(report.value, strict) {
        ProblemsAreNamed(problems, report.value);
        problems := WithValidationProblems(problems, report.value);
      }
      accepted := ApplyEvaluatedRepair(repaired, report, problems);
    }

    method ApplyEvaluatedRepair(repaired: Option<string>, report: Option<Report>, problems: seq<string>)
      returns (accepted: bool)
      modifies this
      ensures accepted <==> repaired.Some? && report.Some? && problems == []
      ensures this.problems == problems
      ensures repairState == if accepted then Accepted else Rejected
      ensures latestRejected == if accepted then None else repaired
      ensures repaired.Some? && report.Some? && (accepted || !old(CanPublish())) ==>
                && displayed == Some(report.value.normalizedText) && this.report == report && structurallyValid
                && base == if old(CanPublish()) then old(base) else repaired
      ensures !(repaired.Some? && report.Some? && (accepted || !old(CanPublish()))) ==>
                displayed == old(displayed) && this.report == old(this.report) && base == old(base)
                && structurallyValid == old(structurallyValid)
    {
      var hadUsablePrimary := CanPublish();
      var ok := repaired.Some? && report.Some? && problems == [];
      latestRejected := if ok then None else repaired;
      if ok {
        latestRejectedReport := None;
      } else if report.Some? {
        latestRejectedReport := report;
      }
      if repaired.Some? && report.Some? && (ok || !hadUsablePrimary) {
        if !hadUsablePrimary {
          base := repaired;
        }
        displayed := Some(report.value.normalizedText);
        this.report := report;
        structurallyValid := true;
      }
      this.problems := problems;
      repairState := if ok && CanPublish() then Accepted else Rejected;
      accepted := ok && CanPublish();
    }

    method Finish() returns (value: Option<Translation>)
      ensures value.Some? <==>
              && CanPublish() && (repairState.NotNeeded? || repairState.Accepted?)
              && !IsBlank(if displayed.Some? then displayed.value else report.value.normalizedText)
      ensures value.Some? ==>
                value.value == Translation(base.value,
                                           if displayed.Some? then displayed.value else report.value.normalizedText,
                                           report.value, repairState)
    {
      if !CanPublish() || repairState.Pending? || repairState.Rejected? {
        return None;
      }
      var shown := if displayed.Some? then displayed.value else report.value.normalizedText;
      if IsBlank(shown) {
        return None;
      }
      value := Some(Translation(base.value, shown, report.value, repairState));
    }
  }

  // ---- One unit of the strict rewrite ----

  /** What the rewrite of one unit depends on: the primary outcome (None if the
      model left the unit out), the repair outcome it would get, the validator,
      the protected names, and which text anchors which name. */
  datatype Unit = Unit(
    primary: Option<Outcome>,
    repair: Option<Outcome>,
    validate: Validator,
    names: seq<string>,
    anchored: (string, string) -> bool)

  predicate AllAnchored(unit: Unit, text: string) {
    forall name | name in unit.names :: unit.anchored(name, text)
  }

  function Missing(): Outcome {
    Outcome(None, ["missing line"], true)
  }

  function Primary(unit: Unit): Outcome {
    unit.primary.GetOr(Missing())
  }

  /** The text of a complete outcome that has no nameable problem. */
  predicate Passes(unit: Unit, outcome: Outcome) {
    outcome.IsValid() && !NamesARepair(unit.validate(Trim(outcome.text.value)), true)
  }

  /** Shown text and its report come from one outcome. */
  function Showing(unit: Unit, outcome: Outcome, base: string, state: RepairState): Translation
    requires outcome.text.Some?
  {
    var report := unit.validate(Trim(outcome.text.value));
    Translation(base, report.normalizedText, report, state)
  }

  predicate Showable(unit: Unit, outcome: Outcome) {
    && Passes(unit, outcome)
    && var shown := unit.validate(Trim(outcome.text.value)).normalizedText;
       !IsBlank(shown) && AllAnchored(unit, shown)
  }

  /** A repair is asked for exactly when the primary left a named problem. */
  predicate NeedsRepair(unit: Unit) {
    var primary := Primary(unit);
    || primary.issues != []
    || match NonemptyTranslation(primary.text)
       case None => unit.names != []
       case Some(text) =>
         || NamesARepair(unit.validate(text), true)
         || !AllAnchored(unit, unit.validate(text).normalizedText)
  }

  /** The whole rewrite: what is shown, and when nothing is. */
  function Rewrite(unit: Unit): Option<Translation> {
    var primary := Primary(unit);
    if Showable(unit, primary) then
      Some(Showing(unit, primary, Trim(primary.text.value), NotNeeded))
    else if NeedsRepair(unit) && unit.repair.Some? && Showable(unit, unit.repair.value) then
      var repair := unit.repair.value;
      Some(Showing(unit, repair, Trim(if primary.IsValid() then primary.text.value else repair.text.value), Accepted))
    else
      None
  }

  method AddUnanchoredNames(state: TranslationState, unit: Unit)
    modifies state
    ensures state.repairState == old(state.repairState) && state.base == old(state.base)
    ensures state.displayed == old(state.displayed) && state.report == old(state.report)
    ensures state.structurallyValid == old(state.structurallyValid)
    ensures var text := if old(state.displayed).Some? then old(state.displayed) else old(state.base);
            state.problems == [] <==>
              old(state.problems) == [] && if text.Some? then AllAnchored(unit, text.value) else unit.names == []
  {
    var text := if state.displayed.Some? then state.displayed else state.base;
    for i := 0 to |unit.names|
      invariant state.repairState == old(state.repairState) && state.base == old(state.base)
      invariant state.displayed == old(state.displayed) && state.report == old(state.report)
      invariant state.structurallyValid == old(state.structurallyValid)
      invariant state.problems == [] <==>
                  old(state.problems) == []
                  && if text.Some? then forall k | 0 <= k < i :: unit.anchored(unit.names[k], text.value) else i == 0
    {
      if text.None? || !unit.anchored(unit.names[i], text.value) {
        state.problems := state.problems + ["Preserve the exact proper name: " + unit.names[i]];
      }
    }
    assert forall name | name in unit.names :: exists k | 0 <= k < |unit.names| :: unit.names[k] == name;
    assert text.Some? ==>
        (AllAnchored(unit, text.value) <==>
            forall k | 0 <= k < |unit.names| :: unit.anchored(unit.names[k], text.value));
  }

  lemma ShowablePrimaryNeedsNoRepair(unit: Unit)
    ensures Showable(unit, Primary(unit)) ==> !NeedsRepair(unit)
    ensures !NeedsRepair(unit) && Primary(unit).IsValid() ==>
              var shown := unit.validate(Trim(Primary(unit).text.value)).normalizedText;
              Passes(unit, Primary(unit)) && AllAnchored(unit, shown)
  {
  }

  method EvaluatePrimary(unit: Unit) returns (state: TranslationState)
    ensures fresh(state) && state.strict && state.repairState == NotNeeded
    ensures state.problems == [] <==> !NeedsRepair(unit)
    ensures state.CanPublish() <==> Primary(unit).IsValid()
    ensures state.CanPublish() ==> state.base == Some(Trim(Primary(unit).text.value))
    ensures !NeedsRepair(unit) && state.CanPublish() ==>
              var report := unit.validate(Trim(Primary(unit).text.value));
              state.report == Some(report) && state.displayed == Some(report.normalizedText)
  {
    state := new TranslationState.FromInitial(Primary(unit), unit.validate, true);
    AddUnanchoredNames(state, unit);
  }

  /** One unit through the repair states. Its result is told without them by
      GoodPrimaryIsShown, GoodRepairIsShown and ShownExactlyWhenGood. */
  method RewriteUnit(unit: Unit) returns (result: Result)
    ensures Rewrite(unit) == match result case Shown(value) => Some(value) case Withheld(_) => None
    ensures result.Shown? <==>
            || (unit.primary.Some? && IsGood(unit.primary.value, unit.validate, unit.names, unit.anchored))
            || (LeavesAProblem(unit)
                && unit.repair.Some? && IsGood(unit.repair.value, unit.validate, unit.names, unit.anchored))
  {
    ShownExactlyWhenGood(unit);
    hide IsGood, LeavesAProblem;
    var state := EvaluatePrimary(unit);
    ShowablePrimaryNeedsNoRepair(unit);
    hide NeedsRepair, NamesARepair, IsBlank, Trim, AllAnchored;
    if state.problems != [] && unit.repair.Some? {
      var accepted := state.ApplyRepair(unit.repair.value, unit.validate);
    }
    if state.problems != [] {
      return Withheld("strict HSK validation remained invalid after one repair");
    }
    var value := state.Finish();
    if value.None? {
      return Withheld("direct translation and its repair are not safe to publish");
    }
    if !AllAnchored(unit, value.value.displayed) {
      return Withheld("a protected proper name was changed or omitted");
    }
    result := Shown(value.value);
  }

  // ---- What may be shown ----

  /** Whatever the primary and the repair were: a shown translation displays its
      own report's text, is final, has every protected name anchored, comes from
      the one complete outcome its state names, and leaves nothing to repair. */
  lemma ShownIsSafe(unit: Unit)
    requires Rewrite(unit).Some?
    ensures var value := Rewrite(unit).value;
            && value.displayed == value.report.normalizedText && !IsBlank(value.displayed)
            && AllAnchored(unit, value.displayed)
            && (value.repairState.NotNeeded? || value.repairState.Accepted?)
            && !NamesARepair(value.report, true)
            && (value.repairState.NotNeeded? ==>
                  Primary(unit).IsValid() && value.report == unit.validate(Trim(Primary(unit).text.value)))
            && (value.repairState.Accepted? ==>
                  && NeedsRepair(unit) && unit.repair.Some? && unit.repair.value.IsValid()
                  && value.report == unit.validate(Trim(unit.repair.value.text.value)))
  {
    ShowablePrimaryNeedsNoRepair(unit);
  }

  /** An outcome that must be shown when its turn comes: it is whole, its report
      names nothing above the level, and its normal form is not blank and anchors
      every protected name. */
  predicate IsGood(outcome: Outcome, validate: Validator, names: seq<string>, anchored: (string, string) -> bool) {
    && outcome.stopped && outcome.issues == [] && outcome.text.Some? && Trim(outcome.text.value) != ""
    && var report := validate(Trim(outcome.text.value));
       && (report.strictlyValid || forall v | v in report.violations :: Trim(v) == "")
       && Trim(report.normalizedText) != ""
       && forall name | name in names :: anchored(name, report.normalizedText)
  }

  /** What in a primary asks for a repair: an issue of its own or its absence,
      without text a name to protect, else a named violation or a lost name. */
  predicate LeavesAProblem(unit: Unit) {
    match unit.primary
    case None => true
    case Some(primary) =>
      || primary.issues != []
      || (if primary.text.None? || Trim(primary.text.value) == "" then unit.names != []
          else
            var report := unit.validate(Trim(primary.text.value));
            || (!report.strictlyValid && exists v | v in report.violations :: Trim(v) != "")
            || exists name | name in unit.names :: !unit.anchored(name, report.normalizedText))
  }

  lemma GoodIsShowable(unit: Unit, outcome: Outcome)
    ensures IsGood(outcome, unit.validate, unit.names, unit.anchored) <==> Showable(unit, outcome)
  {
  }

  lemma ProblemsNeedRepair(unit: Unit)
    ensures LeavesAProblem(unit) <==> NeedsRepair(unit)
  {
  }

  /** A good primary is shown as it is. */
  lemma GoodPrimaryIsShown(unit: Unit)
    requires unit.primary.Some? && IsGood(unit.primary.value, unit.validate, unit.names, unit.anchored)
    ensures var text := Trim(unit.primary.value.text.value);
            var report := unit.validate(text);
            Rewrite(unit) == Some(Translation(text, report.normalizedText, report, NotNeeded))
  {
    GoodIsShowable(unit, unit.primary.value);
  }

  /** A good repair of a primary with a problem is shown, over the primary's text
      if that was whole. */
  lemma GoodRepairIsShown(unit: Unit)
    requires LeavesAProblem(unit)
    requires unit.repair.Some? && IsGood(unit.repair.value, unit.validate, unit.names, unit.anchored)
    ensures var text := Trim(unit.repair.value.text.value);
            var report := unit.validate(text);
            var whole := unit.primary.Some? && unit.primary.value.stopped && unit.primary.value.issues == []
                         && unit.primary.value.text.Some? && Trim(unit.primary.value.text.value) != "";
            var base := if whole then Trim(unit.primary.value.text.value) else text;
            Rewrite(unit) == Some(Translation(base, report.normalizedText, report, Accepted))
  {
    GoodIsShowable(unit, unit.repair.value);
    ProblemsNeedRepair(unit);
    ShowablePrimaryNeedsNoRepair(unit);
  }

  /** And nothing else is shown. */
  lemma ShownExactlyWhenGood(unit: Unit)
    ensures Rewrite(unit).Some? <==>
            || (unit.primary.Some? && IsGood(unit.primary.value, unit.validate, unit.names, unit.anchored))
            || (LeavesAProblem(unit)
                && unit.repair.Some? && IsGood(unit.repair.value, unit.validate, unit.names, unit.anchored))
  {
    GoodIsShowable(unit, Primary(unit));
    if unit.repair.Some? {
      GoodIsShowable(unit, unit.repair.value);
    }
    ProblemsNeedRepair(unit);
    ShowablePrimaryNeedsNoRepair(unit);
    hide NeedsRepair, LeavesAProblem;
  }

  /** A repair that is incomplete or still has a nameable problem is never shown,
      not even to replace an unusable primary. */
  lemma RejectedRepairIsNeverShown(unit: Unit)
    requires NeedsRepair(unit) && (unit.repair.Some? ==> !Passes(unit, unit.repair.value))
    ensures Rewrite(unit).None?
  {
    ShowablePrimaryNeedsNoRepair(unit);
  }

  /** Every shown translation is strictly valid exactly if the validator names a
      non-blank violation whenever it rejects a text that could be displayed. */
  lemma ShownIsStrictlyValidExactlyWhen(validate: Validator)
    ensures (forall unit: Unit | unit.validate == validate && Rewrite(unit).Some? ::
               Rewrite(unit).value.report.strictlyValid) <==>
            (forall text | text != "" && Trim(text) == text && !IsBlank(validate(text).normalizedText) ::
               validate(text).strictlyValid || NamesARepair(validate(text), true))
  {
    if forall unit: Unit | unit.validate == validate && Rewrite(unit).Some? ::
        Rewrite(unit).value.report.strictlyValid {
      forall text | text != "" && Trim(text) == text && !IsBlank(validate(text).normalizedText)
        ensures validate(text).strictlyValid || NamesARepair(validate(text), true)
      {
        var unit := Unit(Some(Outcome(Some(text), [], true)), None, validate, [], (name, shown) => true);
        if !NamesARepair(validate(text), true) {
          assert Showable(unit, Primary(unit));
          assert Rewrite(unit).Some?;
        }
      }
    }
    if forall text | text != "" && Trim(text) == text && !IsBlank(validate(text).normalizedText) ::
        validate(text).strictlyValid || NamesARepair(validate(text), true) {
      forall unit: Unit | unit.validate == validate && Rewrite(unit).Some?
        ensures Rewrite(unit).value.report.strictlyValid
      {
        ShownIsSafe(unit);
        var outcome := if Rewrite(unit).value.repairState.NotNeeded? then Primary(unit) else unit.repair.value;
        TrimTwice(outcome.text.value);
      }
    }
  }

  // ---- The session around the rewrite ----

  ghost predicate Safe(value: Translation) {
    && value.displayed == value.report.normalizedText
    && (value.repairState.NotNeeded? || value.repairState.Accepted?)
    && !NamesARepair(value.report, true)
  }

  /** What is made of a unit that is not cached. */
  method TranslateFresh(unit: Unit, faithful: Option<string>, fits: bool) returns (result: Result)
    ensures result.Shown? ==> Safe(result.value)
    ensures match faithful
            case None => result.Withheld?
            case Some(text) =>
              var report := unit.validate(text);
              if report.strictlyValid && fits then
                result == Shown(Translation(text, report.normalizedText, report, NotNeeded))
              else Rewrite(unit) == match result case Shown(value) => Some(value) case Withheld(_) => None
  {
    hide Rewrite, NamesARepair;
    if faithful.None? {
      return Withheld("faithful Chinese could not be established");
    }
    var report := unit.validate(faithful.value);
    if report.strictlyValid && fits {
      result := Shown(Translation(faithful.value, report.normalizedText, report, NotNeeded));
      ValidNamesNothing(report);
    } else {
      result := RewriteUnit(unit);
      if result.Shown? {
        ShownIsSafe(unit);
      }
    }
  }

  /** The strict half of translate_unit for one unit: a final cached value, a
      faithful text that is already strictly valid and fits its layout, or the
      rewrite. Only what is shown is remembered. */
  class StrictSession {
    const cache: ByteBoundedCache<Translation>

    constructor (maxBytes: nat)
      ensures fresh(cache) && cache.Valid() && cache.entries == map[] && CacheIsSafe()
    {
      cache := new ByteBoundedCache(maxBytes);
    }

    ghost predicate CacheIsSafe()
      reads cache
    {
      forall key | key in cache.entries :: Safe(cache.entries[key].value)
    }

    method TranslateUnit(key: string, unit: Unit, faithful: Option<string>, fits: bool,
                         sizeOf: (string, Translation) -> nat)
      returns (result: Result)
      requires cache.Valid() && CacheIsSafe()
      modifies cache
      ensures cache.Valid() && CacheIsSafe()
      ensures result.Shown? ==> Safe(result.value)
      ensures forall k | k in cache.entries ::
                || (k in old(cache.entries) && cache.entries[k].value == old(cache.entries)[k].value)
                || (k == key && result == Shown(cache.entries[k].value))
      ensures result.Shown? && key !in old(cache.entries) && old(cache.clock) < U64_MAX - 1 ==>
                (key in cache.entries <==> sizeOf(key, result.value) <= cache.maxBytes)
      ensures key in old(cache.entries) ==> result == Shown(old(cache.entries)[key].value)
      ensures key !in old(cache.entries) ==>
                match faithful
                case None => result.Withheld?
                case Some(text) =>
                  var report := unit.validate(text);
                  if report.strictlyValid && fits then
                    result == Shown(Translation(text, report.normalizedText, report, NotNeeded))
                  else Rewrite(unit) == match result case Shown(value) => Some(value) case Withheld(_) => None
    {
      hide Rewrite, NamesARepair, Agree, UsedSince, OldestFirst, Inserted, Touched, Find, Bytes, BytesAt;
      var cached := cache.Get(key);
      if cached.Some? && (cached.value.repairState.NotNeeded? || cached.value.repairState.Accepted?) {
        return Shown(cached.value);
      }
      result := TranslateFresh(unit, faithful, fits);
      hide Safe;
      if result.Shown? {
        cache.Insert(key, result.value, sizeOf(key, result.value));
      }
    }
  }

  lemma ValidNamesNothing(report: Report)
    requires report.strictlyValid
    ensures !NamesARepair(report, true)
  {
  }
}
