/**
 * The checks `check_config_section` makes on one configurable section
 * before it resolves the section's component references: the section is a
 * hash with its five mandatory keys, every key of the type table has an
 * allowed class, `0 <= min <= value <= max`, its exclusions name other
 * existing sections, and its presets lie within `[min, max]`.
 */
module Sections {
  import opened Values
  import opened Diagnostics

  const SectionKeys: seq<string> := ["title", "description", "value", "min", "max"]

  /** The type table, in the order the checker walks it: a key the section
      may carry and the classes its value may have. */
  const TypeTable: seq<(string, set<RubyClass>)> := [
    ("title", {StringClass}),
    ("description", {StringClass}),
    ("value", {FixnumClass}),
    ("min", {FixnumClass}),
    ("max", {FixnumClass}),
    ("presets", {ArrayClass}),
    ("checked", {TrueClass, FalseClass}),
    ("excludes", {ArrayClass, StringClass}),
    ("components", {ArrayClass})
  ]

  /** An entry of the type table is skipped when its key is absent. */
  predicate FieldTyped(s: Value, entry: (string, set<RubyClass>))
    requires s.Hash?
  {
    HasKey(s, entry.0) ==> ClassOf(Get(s, entry.0)) in entry.1
  }

  /** Position of the first table entry the section breaks, or |table|. */
  function FirstBadType(s: Value, table: seq<(string, set<RubyClass>)>): (i: nat)
    requires s.Hash?
    ensures i <= |table|
    ensures forall j :: 0 <= j < i ==> FieldTyped(s, table[j])
    ensures i < |table| ==> !FieldTyped(s, table[i])
  {
    if table == [] then 0
    else if !FieldTyped(s, table[0]) then 0
    else 1 + FirstBadType(s, table[1..])
  }

  /** The type rules stated key by key. */
  predicate WellTyped(s: Value)
    requires s.Hash?
  {
    && (HasKey(s, "title") ==> Get(s, "title").Str?)
    && (HasKey(s, "description") ==> Get(s, "description").Str?)
    && (HasKey(s, "value") ==> IsFixnum(Get(s, "value")))
    && (HasKey(s, "min") ==> IsFixnum(Get(s, "min")))
    && (HasKey(s, "max") ==> IsFixnum(Get(s, "max")))
    && (HasKey(s, "presets") ==> Get(s, "presets").List?)
    && (HasKey(s, "checked") ==> Get(s, "checked").Bool?)
    && (HasKey(s, "excludes") ==> Get(s, "excludes").List? || Get(s, "excludes").Str?)
    && (HasKey(s, "components") ==> Get(s, "components").List?)
  }

  /** Walking the type table finds no offender exactly when the section is
      well typed. */
  lemma TypeTableAgrees(s: Value)
    requires s.Hash?
    ensures FirstBadType(s, TypeTable) == |TypeTable| <==> WellTyped(s)
  {
    var t := FirstBadType(s, TypeTable);
    assert TypeTable[0] == ("title", {StringClass});
    assert TypeTable[1] == ("description", {StringClass});
    assert TypeTable[2] == ("value", {FixnumClass});
    assert TypeTable[3] == ("min", {FixnumClass});
    assert TypeTable[4] == ("max", {FixnumClass});
    assert TypeTable[5] == ("presets", {ArrayClass});
    assert TypeTable[6] == ("checked", {TrueClass, FalseClass});
    assert TypeTable[7] == ("excludes", {ArrayClass, StringClass});
    assert TypeTable[8] == ("components", {ArrayClass});
    if !WellTyped(s) {
      assert exists j :: 0 <= j < |TypeTable| && !FieldTyped(s, TypeTable[j]);
    }
  }

  /** `min >= 0`, `min <= max`, `value <= max`, `value >= min`, in that order. */
  function CheckRange(name: Value, value: int, min: int, max: int): (r: Outcome)
    ensures r.Pass? <==> 0 <= min <= value <= max
    ensures min < 0 ==> r == Fail(MinBelowZero(name))
    // min above max is reported whatever the value
    ensures 0 <= min && max < min ==> r == Fail(MinAboveMax(name))
    ensures 0 <= min <= max && !(min <= value <= max) ==> r.error.ValueAboveMax? || r.error.ValueBelowMin?
  {
    if min < 0 then Fail(MinBelowZero(name))
    else if min > max then Fail(MinAboveMax(name))
    else if value > max then Fail(ValueAboveMax(name))
    else if value < min then Fail(ValueBelowMin(name))
    else Pass
  }

  /** `excludes` is a list of section names, or a single name. */
  function ExcludedNames(excludes: Value): seq<Value> {
    if excludes.List? then excludes.items else [excludes]
  }

  /** Each excluded name differs from the section's own and names a section. */
  function CheckExcludes(sections: Value, name: Value, names: seq<Value>): (r: Outcome)
    requires sections.Hash?
    ensures r.Pass? <==> forall x :: x in names ==> x != name && IsKeyOf(x, sections)
    ensures name in names && (forall x :: x in names ==> IsKeyOf(x, sections)) ==> r == Fail(SelfExclusion(name))
  {
    if names == [] then Pass
    else if names[0] == name then assert names[0] in names; Fail(SelfExclusion(name))
    else if !IsKeyOf(names[0], sections) then Fail(UndefinedExclusion(name, names[0]))
    else CheckExcludes(sections, name, names[1..])
  }

  /** A preset with a string title and a Fixnum value within the section's range. */
  predicate PresetOk(preset: Value, min: int, max: int) {
    && preset.Hash?
    && Get(preset, "title").Str?
    && IsFixnum(Get(preset, "value"))
    && min <= Get(preset, "value").i <= max
  }

  /** One preset. A preset that is not a hash makes Ruby raise on `has_key?`. */
  function CheckPreset(name: Value, preset: Value, min: int, max: int): (r: Outcome)
    ensures r.Pass? <==> PresetOk(preset, min, max)
  {
    if !preset.Hash? then Fail(RuntimeFailure)
    else if !HasKey(preset, "title") then Fail(PresetMissingTitle(name))
    else if ClassOf(Get(preset, "title")) != StringClass then Fail(PresetTitleNotString(name))
    else if !HasKey(preset, "value") then Fail(PresetMissingValue(name))
    else if ClassOf(Get(preset, "value")) != FixnumClass then Fail(PresetValueNotFixnum(name))
    else if Get(preset, "value").i > max then Fail(PresetAboveMax(name))
    else if Get(preset, "value").i < min then Fail(PresetBelowMin(name))
    else Pass
  }

  function CheckPresets(name: Value, presets: seq<Value>, min: int, max: int): (r: Outcome)
    ensures r.Pass? <==> forall p :: p in presets ==> PresetOk(p, min, max)
  {
    if presets == [] then Pass
    else
      var first := CheckPreset(name, presets[0], min, max);
      if first.Fail? then first else CheckPresets(name, presets[1..], min, max)
  }

  /** The conditions on the fields of a section that has its mandatory keys. */
  predicate FieldsOk(sections: Value, name: Value, s: Value)
    requires sections.Hash? && s.Hash?
    requires HasKey(s, "value") && HasKey(s, "min") && HasKey(s, "max")
  {
    && WellTyped(s)
    && 0 <= Get(s, "min").i <= Get(s, "value").i <= Get(s, "max").i
    && (HasKey(s, "excludes") ==>
          forall x :: x in ExcludedNames(Get(s, "excludes")) ==> x != name && IsKeyOf(x, sections))
    && (HasKey(s, "presets") ==>
          forall p :: p in Get(s, "presets").items ==> PresetOk(p, Get(s, "min").i, Get(s, "max").i))
  }

  /** A section the checks accept, stated as conditions on its fields. */
  predicate SectionShapeOk(sections: Value, name: Value)
    requires sections.Hash?
  {
    var s := Lookup(sections, name);
    && s.Hash?
    && HasKey(s, "title") && HasKey(s, "description")
    && HasKey(s, "value") && HasKey(s, "min") && HasKey(s, "max")
    && FieldsOk(sections, name, s)
  }

  /** The checks after the mandatory keys: the type table, the range, the
      exclusions, the presets. */
  function CheckFields(sections: Value, name: Value, s: Value): (r: Outcome)
    requires sections.Hash? && s.Hash?
    requires HasKey(s, "value") && HasKey(s, "min") && HasKey(s, "max")
    ensures r.Pass? <==> FieldsOk(sections, name, s)
    // min above max is reported before the value is compared
    ensures WellTyped(s) && 0 <= Get(s, "min").i && Get(s, "max").i < Get(s, "min").i ==>
              r == Fail(MinAboveMax(name))
  {
    var t := FirstBadType(s, TypeTable);
    TypeTableAgrees(s);
    if t < |TypeTable| then Fail(InvalidFieldType(name, TypeTable[t].0))
    else
      var value, min, max := Get(s, "value").i, Get(s, "min").i, Get(s, "max").i;
      var range := CheckRange(name, value, min, max);
      if range.Fail? then range
      else if HasKey(s, "excludes") && CheckExcludes(sections, name, ExcludedNames(Get(s, "excludes"))).Fail? then
        CheckExcludes(sections, name, ExcludedNames(Get(s, "excludes")))
      else if HasKey(s, "presets") then CheckPresets(name, Get(s, "presets").items, min, max)
      else Pass
  }

  /** The checks of `check_config_section` up to its component references. */
  function CheckSection(sections: Value, name: Value): (r: Checked)
    requires sections.Hash?
    ensures r.outcome.Pass? <==> SectionShapeOk(sections, name)
    ensures !Lookup(sections, name).Hash? ==> r.outcome == Fail(SectionNotHash(name))
    // the only warning: a section without a components list
    ensures r.warnings == [] || r.warnings == [SectionWithoutComponents(name)]
    ensures r.outcome.Pass? ==>
              r.warnings == if HasKey(Lookup(sections, name), "components") then [] else [SectionWithoutComponents(name)]
    ensures var s := Lookup(sections, name);
            (&& s.Hash? && HasKey(s, "title") && HasKey(s, "description")
             && HasKey(s, "value") && HasKey(s, "min") && HasKey(s, "max")) ==>
              r.outcome == CheckFields(sections, name, s)
  {
    var s := Lookup(sections, name);
    if ClassOf(s) != HashClass then Checked([], Fail(SectionNotHash(name)))
    else
      var k := FirstMissing(SectionKeys, s);
      assert SectionKeys[2] == "value" && SectionKeys[3] == "min" && SectionKeys[4] == "max";
      assert SectionKeys[0] == "title" && SectionKeys[1] == "description";
      if k < |SectionKeys| then Checked([], Fail(SectionMissingKey(name, SectionKeys[k])))
      else
        var ws := if HasKey(s, "components") then [] else [SectionWithoutComponents(name)];
        Checked(ws, CheckFields(sections, name, s))
  }
}
