/**
 * The widget validator (scripts/validate-widgets.mjs): every `.yml` or
 * `.yaml` file of `widgets/` must load to an object with an `id` equal to
 * its file name, URL-safe and unique across files, a `title`, and arrays of
 * `inputs` and `outputs` whose entries carry ids unique within the file;
 * number inputs name a known unit group or an inline unit map, and every
 * output has a formula.
 *
 * The YAML loader is not part of this model: each file comes with the value
 * it loads to, or `None` when loading throws. Numbers are integers.
 */
module ValidateWidgets {
  import opened Strings
  import Dedup
  import Seqs

  /** A value `yaml.load` can produce. */
  datatype JsValue =
    | Undefined
    | Null
    | Bool(b: bool)
    | Num(n: int)
    | Str(s: string)
    | Arr(items: seq<JsValue>)
    | Obj(props: map<string, JsValue>)

  predicate JsTruthy(v: JsValue) {
    match v
    case Undefined => false
    case Null => false
    case Bool(b) => b
    case Num(n) => n != 0
    case Str(s) => s != ""
    case Arr(_) => true
    case Obj(_) => true
  }

  /** The answers of `typeof` for the values above. */
  datatype JsType = UndefinedType | ObjectType | BooleanType | NumberType | StringType

  /** `typeof v`: `null` and arrays are objects. */
  function TypeOf(v: JsValue): JsType {
    match v
    case Undefined => UndefinedType
    case Null => ObjectType
    case Bool(_) => BooleanType
    case Num(_) => NumberType
    case Str(_) => StringType
    case Arr(_) => ObjectType
    case Obj(_) => ObjectType
  }

  /** Reading a property of `null` or `undefined` throws a TypeError. */
  predicate Nullish(v: JsValue) {
    v.Undefined? || v.Null?
  }

  /** `v[key]` on a value that is not nullish; only plain objects carry the keys read here. */
  function Get(v: JsValue, key: string): JsValue {
    if v.Obj? && key in v.props then v.props[key] else Undefined
  }

  function DigitChar(d: nat): char
    requires d < 10
  {
    "0123456789"[d]
  }

  function NatText(n: nat): string
    decreases n
  {
    if n < 10 then [DigitChar(n)] else NatText(n / 10) + [DigitChar(n % 10)]
  }

  /** `String(v)`, which `RegExp.prototype.test` applies to its argument. */
  function JsString(v: JsValue): string
    decreases v, 1
  {
    match v
    case Undefined => "undefined"
    case Null => "null"
    case Bool(b) => if b then "true" else "false"
    case Num(n) => if n < 0 then "-" + NatText(-n) else NatText(n)
    case Str(s) => s
    case Arr(items) => ItemsText(items)
    case Obj(_) => "[object Object]"
  }

  /** `items.join(",")`, with `null` and `undefined` shown as empty text. */
  function ItemsText(items: seq<JsValue>): string
    decreases items, 0
  {
    if |items| == 0 then ""
    else
      var last := items[|items| - 1];
      var text := if Nullish(last) then "" else JsString(last);
      if |items| == 1 then text else ItemsText(items[..|items| - 1]) + "," + text
  }

  /** `ID_PATTERN.test(v)`. */
  predicate IdPattern(v: JsValue) {
    IsSlug(JsString(v))
  }

  /** `Set.prototype.has` over the values added so far: each loaded array or object is a distinct reference. */
  predicate Has(ids: seq<JsValue>, v: JsValue) {
    !v.Arr? && !v.Obj? && v in ids
  }

  const KnownUnitGroups: set<string> := {
    "voltage", "current", "resistance", "capacitance", "inductance",
    "frequency", "length", "time", "power", "temperature", "dimensionless"
  }

  datatype WidgetField = IdField | TitleField | InputsField | OutputsField

  function FieldKey(f: WidgetField): string {
    match f
    case IdField => "id"
    case TitleField => "title"
    case InputsField => "inputs"
    case OutputsField => "outputs"
  }

  /** The two lists of a widget, checked by two loops of the same shape. */
  datatype EntryKind = Input | Output

  /** One message passed to `error(file, ...)`. */
  datatype Issue =
    | ParseError(file: string)
    | NotAnObject(file: string)
    | MissingWidgetField(file: string, field: WidgetField)
    | IdMismatch(file: string, id: JsValue, expected: string)
    | InvalidId(file: string, id: JsValue)
    | DuplicateWidgetId(file: string, id: JsValue)
    | NotAnArray(file: string, kind: EntryKind)
    | MissingEntryId(file: string, kind: EntryKind)
    | InvalidEntryId(file: string, kind: EntryKind, id: JsValue)
    | DuplicateEntryId(file: string, kind: EntryKind, id: JsValue)
    | UnknownUnitGroup(file: string, id: JsValue, units: string)
    | BadUnits(file: string, id: JsValue)
    | MissingFormula(file: string, id: JsValue)

  /** A directory entry of `widgets/` and what loading it gives: `None` when the loader throws. */
  datatype WidgetFile = WidgetFile(name: string, loaded: Option<JsValue>)

  datatype Snapshot = Snapshot(widgetsDir: Option<seq<WidgetFile>>)

  /** How a run ends: nothing to check (exit 0), the checks done, or an uncaught exception. */
  datatype Outcome = NothingToCheck | Finished(errors: seq<Issue>) | Crashed

  // ---------------------------------------------------------------------
  // The files checked (lines 35-45 and 66)

  predicate IsWidgetName(name: string) {
    EndsWith(name, ".yml") || EndsWith(name, ".yaml")
  }

  function WidgetFiles(entries: seq<WidgetFile>): seq<WidgetFile> {
    Seqs.ConcatMap(entries, (f: WidgetFile) => if IsWidgetName(f.name) then [f] else [])
  }

  lemma WidgetFilesAre(entries: seq<WidgetFile>, f: WidgetFile)
    ensures f in WidgetFiles(entries) <==> f in entries && IsWidgetName(f.name)
  {
    var g := (f: WidgetFile) => if IsWidgetName(f.name) then [f] else [];
    Seqs.ConcatMapIn(entries, g, f);
    if f in entries && IsWidgetName(f.name) {
      var k :| 0 <= k < |entries| && entries[k] == f;
      assert f in g(entries[k]);
    }
  }

  /** `file.replace(/\.ya?ml$/, '')`. */
  function ExpectedId(name: string): (r: string)
    ensures EndsWith(name, ".yml") ==> r + ".yml" == name
    ensures !EndsWith(name, ".yml") && EndsWith(name, ".yaml") ==> r + ".yaml" == name
    ensures !IsWidgetName(name) ==> r == name
  {
    if EndsWith(name, ".yml") then name[..|name| - 4]
    else if EndsWith(name, ".yaml") then name[..|name| - 5]
    else name
  }

  // ---------------------------------------------------------------------
  // Inputs and outputs (lines 96-127)

  /** The messages found so far in one file's entries, and its `localIds`. */
  datatype Scan = Scan(issues: seq<Issue>, ids: seq<JsValue>)

  /** The checks on a `number` input's `units` (lines 104-111). */
  function UnitIssues(file: string, inp: JsValue, id: JsValue): seq<Issue> {
    var units := Get(inp, "units");
    if Get(inp, "type") == Str("number") then
      (if units.Str? && units.s !in KnownUnitGroups then [UnknownUnitGroup(file, id, units.s)] else []) +
      (if TypeOf(units) != StringType && TypeOf(units) != ObjectType then [BadUnits(file, id)] else [])
    else []
  }

  /** What an entry with a truthy id adds besides its id checks: the units of an input, the formula of an output. */
  function Extra(file: string, kind: EntryKind, item: JsValue, id: JsValue): seq<Issue> {
    match kind
    case Input => UnitIssues(file, item, id)
    case Output => if JsTruthy(Get(item, "formula")) then [] else [MissingFormula(file, id)]
  }

  /** The messages one entry that is not nullish produces, given the ids recorded before it. */
  function Emits(file: string, kind: EntryKind, ids: seq<JsValue>, item: JsValue): seq<Issue> {
    var id := Get(item, "id");
    if !JsTruthy(id) then [MissingEntryId(file, kind)]
    else
      (if IdPattern(id) then [] else [InvalidEntryId(file, kind, id)]) +
      (if Has(ids, id) then [DuplicateEntryId(file, kind, id)] else []) +
      Extra(file, kind, item, id)
  }

  /** The id an entry adds to `localIds`: none when it has no truthy id. */
  function Recorded(item: JsValue): seq<JsValue> {
    if JsTruthy(Get(item, "id")) then [Get(item, "id")] else []
  }

  /** One pass of the loop body; `None` when reading `id` of a `null` or `undefined` entry throws. */
  function EntryStep(file: string, kind: EntryKind, s: Scan, item: JsValue): Option<Scan> {
    if Nullish(item) then None
    else Some(Scan(s.issues + Emits(file, kind, s.ids, item), s.ids + Recorded(item)))
  }

  function ScanEntries(file: string, kind: EntryKind, start: Scan, items: seq<JsValue>): Option<Scan> {
    Seqs.FoldOpt((s: Scan, item: JsValue) => EntryStep(file, kind, s, item), start, items)
  }

  /** The ids of `items` in `localIds` order. */
  function RecordedIds(items: seq<JsValue>): seq<JsValue> {
    Seqs.ConcatMap(items, Recorded)
  }

  method CheckUnits(file: string, inp: JsValue, id: JsValue) returns (issues: seq<Issue>)
    ensures issues == UnitIssues(file, inp, id)
  {
    issues := [];
    if Get(inp, "type") == Str("number") {
      var units := Get(inp, "units");
      if units.Str? && units.s !in KnownUnitGroups {
        issues := issues + [UnknownUnitGroup(file, id, units.s)];
      }
      if TypeOf(units) != StringType && TypeOf(units) != ObjectType {
        issues := issues + [BadUnits(file, id)];
      }
    }
  }

  /** The loop over `config.inputs`, continuing from `start`. */
  method CheckInputs(file: string, start: Scan, items: seq<JsValue>) returns (r: Option<Scan>)
    ensures r == ScanEntries(file, Input, start, items)
  {
    var step := (s: Scan, item: JsValue) => EntryStep(file, Input, s, item);
    var issues, localIds := start.issues, start.ids;
    for i := 0 to |items|
      invariant Seqs.FoldOpt(step, start, items[..i]) == Some(Scan(issues, localIds))
    {
      Seqs.FoldOptSnoc(step, start, items, i);
      var inp := items[i];
      if inp.Undefined? || inp.Null? {
        Seqs.FoldOptStuck(step, start, items, i + 1);
        return None;
      }
      var id := Get(inp, "id");
      if !JsTruthy(id) {
        issues := issues + [MissingEntryId(file, Input)];
        assert localIds + Recorded(items[i]) == localIds;
        continue;
      }
      ghost var before, seen := issues, localIds;
      ghost var invalid: seq<Issue> := if IdPattern(id) then [] else [InvalidEntryId(file, Input, id)];
      ghost var duplicate: seq<Issue> := if Has(localIds, id) then [DuplicateEntryId(file, Input, id)] else [];
      if !IdPattern(id) {
        issues := issues + [InvalidEntryId(file, Input, id)];
      }
      assert issues == before + invalid;
      if Has(localIds, id) {
        issues := issues + [DuplicateEntryId(file, Input, id)];
      }
      AppendAssoc(before, invalid, duplicate);
      ghost var checks := invalid + duplicate;
      assert issues == before + checks;
      localIds := localIds + [id];
      var unitIssues := CheckUnits(file, inp, id);
      issues := issues + unitIssues;
      assert localIds == seen + Recorded(items[i]);
      AppendAssoc(before, checks, unitIssues);
      assert issues == before + Emits(file, Input, seen, inp);
    }
    assert items[..|items|] == items;
    r := Some(Scan(issues, localIds));
  }

  /** The loop over `config.outputs`, continuing from `start`. */
  method CheckOutputs(file: string, start: Scan, items: seq<JsValue>) returns (r: Option<Scan>)
    ensures r == ScanEntries(file, Output, start, items)
  {
    var step := (s: Scan, item: JsValue) => EntryStep(file, Output, s, item);
    var issues, localIds := start.issues, start.ids;
    for i := 0 to |items|
      invariant Seqs.FoldOpt(step, start, items[..i]) == Some(Scan(issues, localIds))
    {
      Seqs.FoldOptSnoc(step, start, items, i);
      var out := items[i];
      if out.Undefined? || out.Null? {
        Seqs.FoldOptStuck(step, start, items, i + 1);
        return None;
      }
      var id := Get(out, "id");
      if !JsTruthy(id) {
        issues := issues + [MissingEntryId(file, Output)];
        assert localIds + Recorded(items[i]) == localIds;
        continue;
      }
      ghost var before, seen := issues, localIds;
      ghost var invalid: seq<Issue> := if IdPattern(id) then [] else [InvalidEntryId(file, Output, id)];
      ghost var duplicate: seq<Issue> := if Has(localIds, id) then [DuplicateEntryId(file, Output, id)] else [];
      if !IdPattern(id) {
        issues := issues + [InvalidEntryId(file, Output, id)];
      }
      assert issues == before + invalid;
      if Has(localIds, id) {
        issues := issues + [DuplicateEntryId(file, Output, id)];
      }
      AppendAssoc(before, invalid, duplicate);
      ghost var checks := invalid + duplicate;
      assert issues == before + checks;
      localIds := localIds + [id];
      ghost var formula: seq<Issue> := Extra(file, Output, out, id);
      if !JsTruthy(Get(out, "formula")) {
        issues := issues + [MissingFormula(file, id)];
      }
      assert issues == before + checks + formula;
      assert localIds == seen + Recorded(items[i]);
      AppendAssoc(before, checks, formula);
      assert issues == before + Emits(file, Output, seen, out);
    }
    assert items[..|items|] == items;
    r := Some(Scan(issues, localIds));
  }

  // ---------------------------------------------------------------------
  // What the entry loops report

  /** The loop throws exactly when some entry is `null` or `undefined`; otherwise `localIds` gains the truthy ids in order and messages are only added. */
  lemma {:induction false} ScanShape(file: string, kind: EntryKind, start: Scan, items: seq<JsValue>)
    ensures ScanEntries(file, kind, start, items).Some? <==> forall j :: 0 <= j < |items| ==> !Nullish(items[j])
    ensures ScanEntries(file, kind, start, items).Some? ==>
      ScanEntries(file, kind, start, items).value.ids == start.ids + RecordedIds(items) &&
      start.issues <= ScanEntries(file, kind, start, items).value.issues
  {
    if |items| > 0 {
      var init, last := items[..|items| - 1], items[|items| - 1];
      ScanShape(file, kind, start, init);
      assert forall j :: 0 <= j < |init| ==> init[j] == items[j];
      var r := ScanEntries(file, kind, start, items);
      var ri := ScanEntries(file, kind, start, init);
      if ri.Some? && !Nullish(last) {
        var s := ri.value;
        assert r == Some(Scan(s.issues + Emits(file, kind, s.ids, last), s.ids + Recorded(last)));
        AppendAssoc(start.ids, RecordedIds(init), Recorded(last));
      } else if ri.None? {
        var j :| 0 <= j < |init| && Nullish(init[j]);
        assert Nullish(items[j]);
      }
    }
  }

  /** Every message an entry produces, given the ids recorded before it, is in the loop's result. */
  lemma {:induction false} EmitKept(file: string, kind: EntryKind, start: Scan, items: seq<JsValue>, j: nat, e: Issue)
    requires ScanEntries(file, kind, start, items).Some?
    requires j < |items| && e in Emits(file, kind, start.ids + RecordedIds(items[..j]), items[j])
    ensures e in ScanEntries(file, kind, start, items).value.issues
  {
    var init, last := items[..|items| - 1], items[|items| - 1];
    var ri := ScanEntries(file, kind, start, init);
    assert ri.Some?;
    ScanShape(file, kind, start, init);
    if j == |items| - 1 {
      assert items[..j] == init;
    } else {
      assert init[..j] == items[..j] && init[j] == items[j];
      EmitKept(file, kind, start, init, j, e);
    }
  }

  /** A loop that does not throw ran every earlier entry and then the last one. */
  lemma ScanSnoc(file: string, kind: EntryKind, start: Scan, items: seq<JsValue>)
    requires |items| > 0 && ScanEntries(file, kind, start, items).Some?
    ensures var ri := ScanEntries(file, kind, start, items[..|items| - 1]);
      var last := items[|items| - 1];
      ri.Some? && !Nullish(last) &&
      ScanEntries(file, kind, start, items).value ==
        Scan(ri.value.issues + Emits(file, kind, ri.value.ids, last), ri.value.ids + Recorded(last))
  {
  }

  /** Every message the loop adds comes from one entry, given the ids recorded before it. */
  lemma {:induction false} EmitSource(file: string, kind: EntryKind, start: Scan, items: seq<JsValue>, e: Issue) returns (j: nat)
    requires ScanEntries(file, kind, start, items).Some?
    requires e in ScanEntries(file, kind, start, items).value.issues && e !in start.issues
    ensures j < |items| && e in Emits(file, kind, start.ids + RecordedIds(items[..j]), items[j])
  {
    if |items| == 0 {
      assert false;
    }
    var init, last := items[..|items| - 1], items[|items| - 1];
    ScanSnoc(file, kind, start, items);
    var ri := ScanEntries(file, kind, start, init);
    ScanShape(file, kind, start, init);
    if e in ri.value.issues {
      j := EmitSource(file, kind, start, init, e);
      assert init[..j] == items[..j] && init[j] == items[j];
    } else {
      j := |items| - 1;
      assert items[..j] == init;
    }
  }

  /** Entry `j` has the truthy id `v`, already among the ids recorded before it. */
  predicate RepeatsAt(ids: seq<JsValue>, items: seq<JsValue>, j: nat, v: JsValue) {
    j < |items| && Get(items[j], "id") == v && JsTruthy(v) && Has(ids + RecordedIds(items[..j]), v)
  }

  /** A repeated id is reported exactly at the entries whose id is already in `localIds`. */
  lemma DuplicateEntryReported(file: string, kind: EntryKind, start: Scan, items: seq<JsValue>, v: JsValue)
    requires ScanEntries(file, kind, start, items).Some? && DuplicateEntryId(file, kind, v) !in start.issues
    ensures DuplicateEntryId(file, kind, v) in ScanEntries(file, kind, start, items).value.issues <==>
      exists j :: RepeatsAt(start.ids, items, j, v)
  {
    var e := DuplicateEntryId(file, kind, v);
    if e in ScanEntries(file, kind, start, items).value.issues {
      var j := EmitSource(file, kind, start, items, e);
      assert RepeatsAt(start.ids, items, j, v);
    }
    if j :| RepeatsAt(start.ids, items, j, v) {
      EmitKept(file, kind, start, items, j, e);
    }
  }

  /** An entry without a truthy id is reported; it adds nothing to `localIds` (see `Recorded`). */
  lemma MissingEntryReported(file: string, kind: EntryKind, start: Scan, items: seq<JsValue>)
    requires ScanEntries(file, kind, start, items).Some? && MissingEntryId(file, kind) !in start.issues
    ensures MissingEntryId(file, kind) in ScanEntries(file, kind, start, items).value.issues <==>
      exists j :: 0 <= j < |items| && !JsTruthy(Get(items[j], "id"))
  {
    var e := MissingEntryId(file, kind);
    if e in ScanEntries(file, kind, start, items).value.issues {
      var j := EmitSource(file, kind, start, items, e);
    }
    if j :| 0 <= j < |items| && !JsTruthy(Get(items[j], "id")) {
      EmitKept(file, kind, start, items, j, e);
    }
  }

  /** Entry `j` has the truthy id `v`, which does not match the pattern. */
  predicate InvalidAt(items: seq<JsValue>, j: nat, v: JsValue) {
    j < |items| && Get(items[j], "id") == v && JsTruthy(v) && !IdPattern(v)
  }

  /** An id that does not match the pattern is reported at every entry that carries it. */
  lemma InvalidEntryReported(file: string, kind: EntryKind, start: Scan, items: seq<JsValue>, v: JsValue)
    requires ScanEntries(file, kind, start, items).Some? && InvalidEntryId(file, kind, v) !in start.issues
    ensures InvalidEntryId(file, kind, v) in ScanEntries(file, kind, start, items).value.issues <==>
      exists j :: InvalidAt(items, j, v)
  {
    var e := InvalidEntryId(file, kind, v);
    if e in ScanEntries(file, kind, start, items).value.issues {
      var j := EmitSource(file, kind, start, items, e);
      assert InvalidAt(items, j, v);
    }
    if j :| InvalidAt(items, j, v) {
      EmitKept(file, kind, start, items, j, e);
    }
  }

  /** Input `j` has the truthy id `v` and its `type` is the string `number`. */
  predicate NumberInputAt(items: seq<JsValue>, j: nat, v: JsValue) {
    j < |items| && Get(items[j], "id") == v && JsTruthy(v) && Get(items[j], "type") == Str("number")
  }

  /** Number input `j` with id `v` names the group `u`, which is not one of the known groups. */
  predicate UnknownGroupAt(items: seq<JsValue>, j: nat, v: JsValue, u: string) {
    NumberInputAt(items, j, v) && Get(items[j], "units") == Str(u) && u !in KnownUnitGroups
  }

  /** A `number` input whose units are a string outside the known groups is reported. */
  lemma UnknownGroupReported(file: string, start: Scan, items: seq<JsValue>, v: JsValue, u: string)
    requires ScanEntries(file, Input, start, items).Some? && UnknownUnitGroup(file, v, u) !in start.issues
    ensures UnknownUnitGroup(file, v, u) in ScanEntries(file, Input, start, items).value.issues <==>
      exists j :: UnknownGroupAt(items, j, v, u)
  {
    var e := UnknownUnitGroup(file, v, u);
    if e in ScanEntries(file, Input, start, items).value.issues {
      var j := EmitSource(file, Input, start, items, e);
      assert UnknownGroupAt(items, j, v, u);
    }
    if j :| UnknownGroupAt(items, j, v, u) {
      EmitKept(file, Input, start, items, j, e);
    }
  }

  /** Units that `typeof` reports as neither `string` nor `object`: `null`, arrays and maps pass. */
  predicate BadUnitsValue(u: JsValue) {
    u.Undefined? || u.Bool? || u.Num?
  }

  lemma TypeOfUnits(u: JsValue)
    ensures TypeOf(u) != StringType && TypeOf(u) != ObjectType <==> BadUnitsValue(u)
  {
  }

  /** Number input `j` with id `v` has units that are neither text nor an object. */
  predicate BadUnitsAt(items: seq<JsValue>, j: nat, v: JsValue) {
    NumberInputAt(items, j, v) && BadUnitsValue(Get(items[j], "units"))
  }

  /** A `number` input whose units are neither a string nor an object is reported; `null` units pass. */
  lemma BadUnitsReported(file: string, start: Scan, items: seq<JsValue>, v: JsValue)
    requires ScanEntries(file, Input, start, items).Some? && BadUnits(file, v) !in start.issues
    ensures BadUnits(file, v) in ScanEntries(file, Input, start, items).value.issues <==>
      exists j :: BadUnitsAt(items, j, v)
  {
    var e := BadUnits(file, v);
    if e in ScanEntries(file, Input, start, items).value.issues {
      var j := EmitSource(file, Input, start, items, e);
      TypeOfUnits(Get(items[j], "units"));
      assert BadUnitsAt(items, j, v);
    }
    if j: nat :| BadUnitsAt(items, j, v) {
      TypeOfUnits(Get(items[j], "units"));
      EmitKept(file, Input, start, items, j, e);
    }
  }

  /** Output `j` has the truthy id `v` and no truthy `formula`. */
  predicate NoFormulaAt(items: seq<JsValue>, j: nat, v: JsValue) {
    j < |items| && Get(items[j], "id") == v && JsTruthy(v) && !JsTruthy(Get(items[j], "formula"))
  }

  /** An output with a truthy id and no truthy `formula` is reported. */
  lemma FormulaReported(file: string, start: Scan, items: seq<JsValue>, v: JsValue)
    requires ScanEntries(file, Output, start, items).Some? && MissingFormula(file, v) !in start.issues
    ensures MissingFormula(file, v) in ScanEntries(file, Output, start, items).value.issues <==>
      exists j :: NoFormulaAt(items, j, v)
  {
    var e := MissingFormula(file, v);
    if e in ScanEntries(file, Output, start, items).value.issues {
      var j := EmitSource(file, Output, start, items, e);
      assert NoFormulaAt(items, j, v);
    }
    if j :| NoFormulaAt(items, j, v) {
      EmitKept(file, Output, start, items, j, e);
    }
  }

  // ---------------------------------------------------------------------
  // One file (lines 49-131)

  /** The first of `id`, `title`, `inputs`, `outputs` that is missing or falsy. */
  function FirstMissing(config: JsValue): Option<WidgetField> {
    if !JsTruthy(Get(config, "id")) then Some(IdField)
    else if !JsTruthy(Get(config, "title")) then Some(TitleField)
    else if !JsTruthy(Get(config, "inputs")) then Some(InputsField)
    else if !JsTruthy(Get(config, "outputs")) then Some(OutputsField)
    else None
  }

  /** The messages of one file and `seenIds` after it, or `None` when it throws. */
  datatype Checked = Checked(issues: seq<Issue>, seen: seq<JsValue>)

  /** The id checks of lines 75-87, against the ids of earlier files. */
  function WidgetIdIssues(file: string, seen: seq<JsValue>, id: JsValue): seq<Issue> {
    (if id == Str(ExpectedId(file)) then [] else [IdMismatch(file, id, ExpectedId(file))]) +
    (if IdPattern(id) then [] else [InvalidId(file, id)]) +
    (if Has(seen, id) then [DuplicateWidgetId(file, id)] else [])
  }

  /** The entries of a complete config: inputs first, then outputs, sharing `localIds`. */
  function EntryIssues(file: string, config: JsValue): Option<seq<Issue>> {
    var inputs := Get(config, "inputs");
    if !inputs.Arr? then Some([NotAnArray(file, Input)])
    else
      match ScanEntries(file, Input, Scan([], []), inputs.items)
      case None => None
      case Some(si) =>
        var outputs := Get(config, "outputs");
        if !outputs.Arr? then Some(si.issues + [NotAnArray(file, Output)])
        else
          match ScanEntries(file, Output, Scan([], si.ids), outputs.items)
          case None => None
          case Some(so) => Some(si.issues + so.issues)
  }

  /** One pass of the file loop, given `seenIds`; each `continue` ends the file with what it has reported. */
  function CheckWidget(seen: seq<JsValue>, f: WidgetFile): Option<Checked> {
    match f.loaded
    case None => Some(Checked([ParseError(f.name)], seen))
    case Some(config) =>
      if !JsTruthy(config) || TypeOf(config) != ObjectType then Some(Checked([NotAnObject(f.name)], seen))
      else if FirstMissing(config).Some? then Some(Checked([MissingWidgetField(f.name, FirstMissing(config).value)], seen))
      else
        var id := Get(config, "id");
        match EntryIssues(f.name, config)
        case None => None
        case Some(entries) => Some(Checked(WidgetIdIssues(f.name, seen, id) + entries, seen + [id]))
  }

  /** The file loop: messages accumulate, `seenIds` is passed on. */
  function RunStep(c: Checked, f: WidgetFile): Option<Checked> {
    match CheckWidget(c.seen, f)
    case None => None
    case Some(r) => Some(Checked(c.issues + r.issues, r.seen))
  }

  function Run(files: seq<WidgetFile>): Option<Checked> {
    Seqs.FoldOpt(RunStep, Checked([], []), files)
  }

  function Validate(snap: Snapshot): Outcome {
    if snap.widgetsDir.None? then NothingToCheck
    else
      var files := WidgetFiles(snap.widgetsDir.value);
      if |files| == 0 then NothingToCheck
      else
        match Run(files)
        case None => Crashed
        case Some(c) => Finished(c.issues)
  }

  /** `process.exit(errors > 0 ? 1 : 0)`; an uncaught exception also exits with `1`. */
  function ExitCode(o: Outcome): (code: nat)
    ensures code <= 1
    ensures code == 1 <==> o.Crashed? || (o.Finished? && |o.errors| > 0)
  {
    match o
    case NothingToCheck => 0
    case Crashed => 1
    case Finished(errors) => if |errors| > 0 then 1 else 0
  }

  method CheckEntries(file: string, config: JsValue) returns (r: Option<seq<Issue>>)
    ensures r == EntryIssues(file, config)
  {
    var inputs := Get(config, "inputs");
    if !inputs.Arr? {
      return Some([NotAnArray(file, Input)]);
    }
    var si := CheckInputs(file, Scan([], []), inputs.items);
    if si.None? {
      return None;
    }
    var outputs := Get(config, "outputs");
    if !outputs.Arr? {
      return Some(si.value.issues + [NotAnArray(file, Output)]);
    }
    var so := CheckOutputs(file, Scan([], si.value.ids), outputs.items);
    if so.None? {
      return None;
    }
    r := Some(si.value.issues + so.value.issues);
  }

  method CheckFile(seenIds: seq<JsValue>, f: WidgetFile) returns (r: Option<Checked>)
    ensures r == CheckWidget(seenIds, f)
  {
    if f.loaded.None? {
      return Some(Checked([ParseError(f.name)], seenIds));
    }
    var config := f.loaded.value;
    if !JsTruthy(config) || TypeOf(config) != ObjectType {
      return Some(Checked([NotAnObject(f.name)], seenIds));
    }
    var expectedId := ExpectedId(f.name);
    if !JsTruthy(Get(config, "id")) { return Some(Checked([MissingWidgetField(f.name, IdField)], seenIds)); }
    if !JsTruthy(Get(config, "title")) { return Some(Checked([MissingWidgetField(f.name, TitleField)], seenIds)); }
    if !JsTruthy(Get(config, "inputs")) { return Some(Checked([MissingWidgetField(f.name, InputsField)], seenIds)); }
    if !JsTruthy(Get(config, "outputs")) { return Some(Checked([MissingWidgetField(f.name, OutputsField)], seenIds)); }
    var id := Get(config, "id");
    var issues: seq<Issue> := [];
    if id != Str(expectedId) {
      issues := issues + [IdMismatch(f.name, id, expectedId)];
    }
    if !IdPattern(id) {
      issues := issues + [InvalidId(f.name, id)];
    }
    if Has(seenIds, id) {
      issues := issues + [DuplicateWidgetId(f.name, id)];
    }
    assert issues == WidgetIdIssues(f.name, seenIds, id);
    var entries := CheckEntries(f.name, config);
    if entries.None? {
      return None;
    }
    r := Some(Checked(issues + entries.value, seenIds + [id]));
  }

  method ValidateWidgets(snap: Snapshot) returns (outcome: Outcome)
    ensures outcome == Validate(snap)
  {
    if snap.widgetsDir.None? {
      return NothingToCheck;
    }
    var entries := snap.widgetsDir.value;
    var files: seq<WidgetFile> := [];
    for i := 0 to |entries|
      invariant files == WidgetFiles(entries[..i])
    {
      Seqs.ConcatMapSnoc(entries, (f: WidgetFile) => if IsWidgetName(f.name) then [f] else [], i);
      if EndsWith(entries[i].name, ".yml") || EndsWith(entries[i].name, ".yaml") {
        files := files + [entries[i]];
      }
    }
    assert entries[..|entries|] == entries;
    if |files| == 0 {
      return NothingToCheck;
    }
    var errors: seq<Issue> := [];
    var seenIds: seq<JsValue> := [];
    for i := 0 to |files|
      invariant Run(files[..i]) == Some(Checked(errors, seenIds))
    {
      Seqs.FoldOptSnoc(RunStep, Checked([], []), files, i);
      var r := CheckFile(seenIds, files[i]);
      if r.None? {
        Seqs.FoldOptStuck(RunStep, Checked([], []), files, i + 1);
        return Crashed;
      }
      errors := errors + r.value.issues;
      seenIds := r.value.seen;
    }
    assert files[..|files|] == files;
    outcome := Finished(errors);
  }

  // ---------------------------------------------------------------------
  // What one file reports

  /** The position of a required field in the order lines 69-72 check them. */
  function FieldRank(f: WidgetField): nat {
    match f
    case IdField => 0
    case TitleField => 1
    case InputsField => 2
    case OutputsField => 3
  }

  /** The file loads to an object, so the required fields are checked. */
  predicate IsConfig(f: WidgetFile) {
    f.loaded.Some? && JsTruthy(f.loaded.value) && TypeOf(f.loaded.value) == ObjectType
  }

  /** The file passes lines 61-72 and reaches the id checks. */
  predicate Complete(f: WidgetFile) {
    IsConfig(f) && FirstMissing(f.loaded.value).None?
  }

  /** What a file adds to `seenIds`: its id once all four fields are present, valid or not. */
  function WidgetRecorded(f: WidgetFile): seq<JsValue> {
    if Complete(f) then [Get(f.loaded.value, "id")] else []
  }

  /** A file that does not load, or loads to something other than an object, gets exactly one message and records nothing. */
  lemma NotAConfigReported(seen: seq<JsValue>, f: WidgetFile)
    requires !IsConfig(f)
    ensures CheckWidget(seen, f) == Some(Checked([if f.loaded.None? then ParseError(f.name) else NotAnObject(f.name)], seen))
  {
  }

  /** The fields are checked in order: the file gets exactly one message, naming the first falsy field, and records nothing. */
  lemma MissingFieldReported(seen: seq<JsValue>, f: WidgetFile, field: WidgetField)
    requires IsConfig(f)
    ensures CheckWidget(seen, f) == Some(Checked([MissingWidgetField(f.name, field)], seen)) <==>
      !JsTruthy(Get(f.loaded.value, FieldKey(field))) &&
      forall g :: FieldRank(g) < FieldRank(field) ==> JsTruthy(Get(f.loaded.value, FieldKey(g)))
  {
    var c := f.loaded.value;
    if FirstMissing(c).None? {
      var r := CheckWidget(seen, f);
      if r.Some? {
        assert |r.value.seen| == |seen| + 1;
      }
    }
    assert FieldRank(IdField) == 0 && FieldRank(TitleField) == 1 && FieldRank(InputsField) == 2;
  }

  /** The messages the entry loops can produce. */
  predicate EntryMessage(e: Issue) {
    e.NotAnArray? || e.MissingEntryId? || e.InvalidEntryId? || e.DuplicateEntryId? ||
    e.UnknownUnitGroup? || e.BadUnits? || e.MissingFormula?
  }

  /** The messages about outputs. */
  predicate OutputMessage(e: Issue) {
    ((e.NotAnArray? || e.MissingEntryId? || e.InvalidEntryId? || e.DuplicateEntryId?) && e.kind == Output) ||
    e.MissingFormula?
  }

  /** Every message of an entry loop names the file and is an entry message; an input loop says nothing about outputs. */
  lemma ScanMessages(file: string, kind: EntryKind, start: Scan, items: seq<JsValue>, e: Issue)
    requires ScanEntries(file, kind, start, items).Some?
    requires e in ScanEntries(file, kind, start, items).value.issues && e !in start.issues
    ensures e.file == file && EntryMessage(e)
    ensures kind == Input ==> !OutputMessage(e)
  {
    var j := EmitSource(file, kind, start, items, e);
  }

  /** Both loops of a complete file report only entry messages naming the file. */
  lemma EntryIssuesAre(file: string, config: JsValue)
    requires EntryIssues(file, config).Some?
    ensures forall e :: e in EntryIssues(file, config).value ==> e.file == file && EntryMessage(e)
  {
    var inputs := Get(config, "inputs");
    if inputs.Arr? {
      var si := ScanEntries(file, Input, Scan([], []), inputs.items);
      forall e | e in si.value.issues
        ensures e.file == file && EntryMessage(e)
      {
        ScanMessages(file, Input, Scan([], []), inputs.items, e);
      }
      var outputs := Get(config, "outputs");
      if outputs.Arr? {
        var so := ScanEntries(file, Output, Scan([], si.value.ids), outputs.items);
        forall e | e in so.value.issues
          ensures e.file == file && EntryMessage(e)
        {
          ScanMessages(file, Output, Scan([], si.value.ids), outputs.items, e);
        }
      }
    }
  }

  /** For a complete file, a mismatch with the file name and an id outside the pattern are each reported exactly when they hold. */
  lemma WidgetIdChecked(seen: seq<JsValue>, f: WidgetFile)
    requires Complete(f) && CheckWidget(seen, f).Some?
    ensures var id, r := Get(f.loaded.value, "id"), CheckWidget(seen, f).value;
      && (IdMismatch(f.name, id, ExpectedId(f.name)) in r.issues <==> id != Str(ExpectedId(f.name)))
      && (InvalidId(f.name, id) in r.issues <==> !IdPattern(id))
  {
    var config := f.loaded.value;
    var es := EntryIssues(f.name, config).value;
    var id := Get(config, "id");
    assert CheckWidget(seen, f).value.issues == WidgetIdIssues(f.name, seen, id) + es;
    EntryIssuesAre(f.name, config);
    assert IdMismatch(f.name, id, ExpectedId(f.name)) !in es && InvalidId(f.name, id) !in es;
  }

  /**
   * A file records its id in `seenIds` once all four fields are present,
   * valid or not, and is reported as a duplicate exactly when that id was
   * recorded by an earlier file.
   */
  lemma WidgetIdRecorded(seen: seq<JsValue>, f: WidgetFile, n: string, v: JsValue)
    requires CheckWidget(seen, f).Some?
    ensures CheckWidget(seen, f).value.seen == seen + WidgetRecorded(f)
    ensures DuplicateWidgetId(n, v) in CheckWidget(seen, f).value.issues <==>
      n == f.name && WidgetRecorded(f) == [v] && Has(seen, v)
  {
    if Complete(f) {
      var config := f.loaded.value;
      var es := EntryIssues(f.name, config).value;
      var id := Get(config, "id");
      assert CheckWidget(seen, f).value.issues == WidgetIdIssues(f.name, seen, id) + es;
      EntryIssuesAre(f.name, config);
      assert DuplicateWidgetId(n, v) !in es;
    }
  }

  /** An entry list holds `null` or `undefined`. */
  predicate HasNullish(items: seq<JsValue>) {
    exists j :: 0 <= j < |items| && Nullish(items[j])
  }

  /** A file throws exactly when it is complete and a loop it reaches meets a `null` or `undefined` entry. */
  lemma WidgetThrows(seen: seq<JsValue>, f: WidgetFile)
    ensures CheckWidget(seen, f).None? <==>
      Complete(f) && Get(f.loaded.value, "inputs").Arr? &&
      (HasNullish(Get(f.loaded.value, "inputs").items) ||
       (Get(f.loaded.value, "outputs").Arr? && HasNullish(Get(f.loaded.value, "outputs").items)))
  {
    if Complete(f) {
      var config := f.loaded.value;
      var inputs, outputs := Get(config, "inputs"), Get(config, "outputs");
      if inputs.Arr? {
        ScanShape(f.name, Input, Scan([], []), inputs.items);
        var si := ScanEntries(f.name, Input, Scan([], []), inputs.items);
        if si.Some? && outputs.Arr? {
          ScanShape(f.name, Output, Scan([], si.value.ids), outputs.items);
        }
      }
    }
  }

  /** A non-array `inputs` is reported exactly when it occurs, and ends the file: no other entry message follows. */
  lemma InputsNotArrayReported(seen: seq<JsValue>, f: WidgetFile)
    requires Complete(f) && CheckWidget(seen, f).Some?
    ensures var inputs, r := Get(f.loaded.value, "inputs"), CheckWidget(seen, f).value;
      && (NotAnArray(f.name, Input) in r.issues <==> !inputs.Arr?)
      && (!inputs.Arr? ==> forall e :: e in r.issues && EntryMessage(e) ==> e == NotAnArray(f.name, Input))
  {
    var config := f.loaded.value;
    var inputs := Get(config, "inputs");
    var es := EntryIssues(f.name, config).value;
    assert CheckWidget(seen, f).value.issues == WidgetIdIssues(f.name, seen, Get(config, "id")) + es;
    if inputs.Arr? {
      InputScanMessages(f.name, config);
      var outputs := Get(config, "outputs");
      if outputs.Arr? {
        OutputScanMessages(f.name, config);
      }
    }
  }

  /** A non-array `outputs` after an array of inputs is reported exactly when it occurs, and no other output message is. */
  lemma OutputsNotArrayReported(seen: seq<JsValue>, f: WidgetFile)
    requires Complete(f) && CheckWidget(seen, f).Some?
    ensures var inputs, outputs, r := Get(f.loaded.value, "inputs"), Get(f.loaded.value, "outputs"), CheckWidget(seen, f).value;
      && (NotAnArray(f.name, Output) in r.issues <==> inputs.Arr? && !outputs.Arr?)
      && (inputs.Arr? && !outputs.Arr? ==> forall e :: e in r.issues && OutputMessage(e) ==> e == NotAnArray(f.name, Output))
  {
    var config := f.loaded.value;
    var inputs := Get(config, "inputs");
    var es := EntryIssues(f.name, config).value;
    assert CheckWidget(seen, f).value.issues == WidgetIdIssues(f.name, seen, Get(config, "id")) + es;
    if inputs.Arr? {
      InputScanMessages(f.name, config);
      var outputs := Get(config, "outputs");
      if outputs.Arr? {
        OutputScanMessages(f.name, config);
      }
    }
  }

  /** The input loop of a file reports no `NotAnArray` and nothing about outputs. */
  lemma InputScanMessages(file: string, config: JsValue)
    requires Get(config, "inputs").Arr? && ScanEntries(file, Input, Scan([], []), Get(config, "inputs").items).Some?
    ensures forall e :: e in ScanEntries(file, Input, Scan([], []), Get(config, "inputs").items).value.issues ==>
      EntryMessage(e) && !OutputMessage(e) && !e.NotAnArray?
  {
    var items := Get(config, "inputs").items;
    forall e | e in ScanEntries(file, Input, Scan([], []), items).value.issues
      ensures EntryMessage(e) && !OutputMessage(e) && !e.NotAnArray?
    {
      var j := EmitSource(file, Input, Scan([], []), items, e);
    }
  }

  /** The output loop of a file reports no `NotAnArray`. */
  lemma OutputScanMessages(file: string, config: JsValue)
    requires Get(config, "inputs").Arr? && Get(config, "outputs").Arr?
    requires ScanEntries(file, Input, Scan([], []), Get(config, "inputs").items).Some?
    ensures var si := ScanEntries(file, Input, Scan([], []), Get(config, "inputs").items).value;
      ScanEntries(file, Output, Scan([], si.ids), Get(config, "outputs").items).Some? ==>
      forall e :: e in ScanEntries(file, Output, Scan([], si.ids), Get(config, "outputs").items).value.issues ==>
        EntryMessage(e) && !e.NotAnArray?
  {
    var si := ScanEntries(file, Input, Scan([], []), Get(config, "inputs").items).value;
    var items := Get(config, "outputs").items;
    if ScanEntries(file, Output, Scan([], si.ids), items).Some? {
      forall e | e in ScanEntries(file, Output, Scan([], si.ids), items).value.issues
        ensures EntryMessage(e) && !e.NotAnArray?
      {
        var j := EmitSource(file, Output, Scan([], si.ids), items, e);
      }
    }
  }

  /**
   * Inputs and outputs share one `localIds`: an input repeats the id of an
   * earlier input, an output that of any input or of an earlier output.
   */
  lemma SharedIdsReported(file: string, config: JsValue, v: JsValue)
    requires EntryIssues(file, config).Some? && Get(config, "inputs").Arr? && Get(config, "outputs").Arr?
    ensures var inputs, outputs := Get(config, "inputs").items, Get(config, "outputs").items;
      && (DuplicateEntryId(file, Input, v) in EntryIssues(file, config).value <==> exists j :: RepeatsAt([], inputs, j, v))
      && (DuplicateEntryId(file, Output, v) in EntryIssues(file, config).value <==>
          exists j :: RepeatsAt(RecordedIds(inputs), outputs, j, v))
  {
    var inputs, outputs := Get(config, "inputs").items, Get(config, "outputs").items;
    var si := ScanEntries(file, Input, Scan([], []), inputs);
    ScanShape(file, Input, Scan([], []), inputs);
    assert [] + RecordedIds(inputs) == RecordedIds(inputs);
    var so := ScanEntries(file, Output, Scan([], si.value.ids), outputs);
    DuplicateEntryReported(file, Input, Scan([], []), inputs, v);
    DuplicateEntryReported(file, Output, Scan([], si.value.ids), outputs, v);
    if DuplicateEntryId(file, Output, v) in si.value.issues {
      ScanMessages(file, Input, Scan([], []), inputs, DuplicateEntryId(file, Output, v));
    }
    if DuplicateEntryId(file, Input, v) in so.value.issues {
      var j := EmitSource(file, Output, Scan([], si.value.ids), outputs, DuplicateEntryId(file, Input, v));
    }
  }

  // ---------------------------------------------------------------------
  // The run over all files

  /** The ids `seenIds` holds when file `i` is checked. */
  function SeenBefore(files: seq<WidgetFile>, i: nat): seq<JsValue>
    requires i <= |files|
  {
    Seqs.ConcatMap(files[..i], WidgetRecorded)
  }

  /** After the loop `seenIds` holds the ids of the complete files, in order. */
  lemma {:induction false} RunSeen(files: seq<WidgetFile>)
    requires Run(files).Some?
    ensures Run(files).value.seen == Seqs.ConcatMap(files, WidgetRecorded)
  {
    if |files| > 0 {
      var init, last := files[..|files| - 1], files[|files| - 1];
      assert Run(init).Some?;
      RunSeen(init);
      WidgetIdRecorded(Run(init).value.seen, last, "", Undefined);
    }
  }

  /** The error count only grows: the messages of the first `i` files begin the final list. */
  lemma {:induction false} RunGrows(files: seq<WidgetFile>, i: nat)
    requires i <= |files| && Run(files).Some?
    ensures Run(files[..i]).Some? && Run(files[..i]).value.issues <= Run(files).value.issues
  {
    if i < |files| {
      var init := files[..|files| - 1];
      assert Run(init).Some?;
      assert init[..i] == files[..i];
      RunGrows(init, i);
    } else {
      assert files[..i] == files;
    }
  }

  /** Every message of file `i`, checked against the ids of the files before it, is in the final list. */
  lemma FileKept(files: seq<WidgetFile>, i: nat, e: Issue)
    requires i < |files| && Run(files).Some?
    ensures CheckWidget(SeenBefore(files, i), files[i]).Some?
    ensures e in CheckWidget(SeenBefore(files, i), files[i]).value.issues ==> e in Run(files).value.issues
  {
    RunGrows(files, i + 1);
    Seqs.FoldOptSnoc(RunStep, Checked([], []), files, i);
    RunSeen(files[..i]);
    var a, b := Run(files[..i + 1]).value.issues, Run(files).value.issues;
    assert b[..|a|] == a;
    if e in CheckWidget(SeenBefore(files, i), files[i]).value.issues {
      assert e in a;
      var k :| 0 <= k < |a| && a[k] == e;
      assert b[k] == e;
    }
  }

  /** Every message in the final list comes from one file, checked against the ids of the files before it. */
  lemma {:induction false} FileSource(files: seq<WidgetFile>, e: Issue) returns (i: nat)
    requires Run(files).Some? && e in Run(files).value.issues
    ensures i < |files| && CheckWidget(SeenBefore(files, i), files[i]).Some?
    ensures e in CheckWidget(SeenBefore(files, i), files[i]).value.issues
  {
    if |files| == 0 {
      assert false;
    }
    var init, last := files[..|files| - 1], files[|files| - 1];
    assert Run(init).Some?;
    RunSeen(init);
    if e in Run(init).value.issues {
      i := FileSource(init, e);
      assert init[..i] == files[..i] && init[i] == files[i];
    } else {
      i := |files| - 1;
      assert files[..i] == init;
    }
  }

  /** File `i` is named `n`, records the id `v`, and `v` was recorded by an earlier file. */
  predicate RepeatedFileAt(files: seq<WidgetFile>, i: nat, n: string, v: JsValue) {
    i < |files| && files[i].name == n && WidgetRecorded(files[i]) == [v] && Has(SeenBefore(files, i), v)
  }

  /** A widget id is reported as a duplicate exactly at the files whose complete config repeats the id of an earlier complete file. */
  lemma DuplicateWidgetReported(files: seq<WidgetFile>, n: string, v: JsValue)
    requires Run(files).Some?
    ensures DuplicateWidgetId(n, v) in Run(files).value.issues <==> exists i :: RepeatedFileAt(files, i, n, v)
  {
    var e := DuplicateWidgetId(n, v);
    if e in Run(files).value.issues {
      var i := FileSource(files, e);
      WidgetIdRecorded(SeenBefore(files, i), files[i], n, v);
      assert RepeatedFileAt(files, i, n, v);
    }
    if i: nat :| RepeatedFileAt(files, i, n, v) {
      FileKept(files, i, e);
      WidgetIdRecorded(SeenBefore(files, i), files[i], n, v);
    }
  }
}
