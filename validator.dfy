/**
 * The checker object. The three tables come from the database loader and
 * never change; what a run changes is the usage list `componentsUsed`
 * (`@components_used`) that component references grow, and the warnings
 * issued so far. The reference, section and configuration passes and the
 * unused-component report are methods over that state, each proved to
 * compute what the specification functions of the other modules say.
 */
module Validator {
  import opened Values
  import opened Diagnostics
  import opened Suppliers
  import opened Components
  import opened KeyDiff
  import opened References
  import opened Sections
  import opened Configurations

  /** Everything a whole run leaves behind: the warnings issued, the usage
      list, the verdict, and the unused components it lists (none when the
      run aborts before the report). */
  datatype Verdict = Verdict(warnings: seq<Warning>, used: seq<Value>, outcome: Outcome, unused: seq<string>)

  /** `test`: the four passes in order, from the given usage list and
      warnings. A supplier or component table that is not a hash makes
      Ruby raise on `each_key`. */
  function Validate(suppliers: Value, components: Value, configurations: Value, used: seq<Value>, ws: seq<Warning>): Verdict {
    if !suppliers.Hash? then Verdict(ws, used, Fail(RuntimeFailure), [])
    else
      var s := CheckSuppliers(suppliers);
      if s.Fail? then Verdict(ws, used, s, [])
      else if !components.Hash? then Verdict(ws, used, Fail(RuntimeFailure), [])
      else
        var c := CheckComponents(suppliers, components);
        if c.outcome.Fail? then Verdict(ws + c.warnings, used, c.outcome, [])
        else
          var run := ConfigRun(components, configurations, used, ws + c.warnings);
          if run.outcome.Fail? then Verdict(run.warnings, run.used, run.outcome, [])
          else Verdict(run.warnings, run.used, Pass, KeysNotIn(components.keys, run.used))
  }

  /** A database the checker accepts, stated table by table. */
  predicate DatabaseOk(suppliers: Value, components: Value, configurations: Value) {
    && suppliers.Hash?
    && components.Hash?
    && (forall n :: n in suppliers.keys ==> SupplierOk(Get(suppliers, n)))
    && (forall n :: n in components.keys ==> ComponentOk(components, suppliers.keys, Get(components, n)))
    && ConfigOk(components, configurations)
  }

  class CheckDbSanity {
    const suppliers: Value
    const components: Value
    const configurations: Value
    var componentsUsed: seq<Value>
    var warnings: seq<Warning>

    /** The tables as the loader hands them over; nothing is used or
        reported yet. */
    constructor (suppliers: Value, components: Value, configurations: Value)
      ensures this.suppliers == suppliers && this.components == components
      ensures this.configurations == configurations
      ensures componentsUsed == [] && warnings == []
    {
      this.suppliers := suppliers;
      this.components := components;
      this.configurations := configurations;
      componentsUsed := [];
      warnings := [];
    }

    /** The body of the loop in `check_component_references`, for one
        reference: shape-checked and normalised, its id pushed onto the
        usage list unless already there; an obsolete component pushes its
        replacement too and warns. */
    method CheckComponentReference(componentRef: Value, sectionName: Value) returns (outcome: Outcome)
      requires components.Hash?
      modifies this
      ensures Usage(componentsUsed, warnings, outcome)
              == ResolveOne(components, componentRef, sectionName, old(componentsUsed), old(warnings))
    {
      var ref := componentRef;
      if ClassOf(ref) !in {ArrayClass, StringClass} {
        return Fail(ReferenceNotArrayOrString(sectionName));
      }
      if ClassOf(ref) == StringClass {
        ref := List([Int(1), ref]);
      }
      if |ref.items| != 2 {
        return Fail(ReferenceNotPair(sectionName));
      }
      var amount := ref.items[0];
      if ClassOf(amount) != FixnumClass {
        return Fail(AmountNotFixnum(sectionName));
      }
      var id := ref.items[1];
      if ClassOf(id) != StringClass {
        return Fail(ComponentIdNotString(sectionName));
      }
      if id.s !in components.fields {
        return Fail(UndefinedComponent(id.s));
      }
      if id !in componentsUsed {
        componentsUsed := componentsUsed + [id];
      }
      var component := components.fields[id.s];
      if !component.Hash? {
        return Fail(RuntimeFailure);
      }
      outcome := Pass;
      if Truthy(Get(component, "obsolete")) {
        if HasKey(component, "replacement") {
          warnings := warnings + [ObsoleteComponentUsed(id.s, sectionName)];
          var replacement := Get(component, "replacement");
          if replacement !in componentsUsed {
            componentsUsed := componentsUsed + [replacement];
          }
        } else {
          outcome := Fail(ObsoleteWithoutReplacement(id.s));
        }
      }
    }

    /** `check_component_references`: a list is walked element by element,
        a hash pair by pair; nothing else has `each`. */
    method CheckComponentReferences(componentReferences: Value, sectionName: Value) returns (outcome: Outcome)
      requires components.Hash?
      modifies this
      ensures Usage(componentsUsed, warnings, outcome)
              == ResolveRefValue(components, componentReferences, sectionName, old(componentsUsed), old(warnings))
    {
      if componentReferences.List? {
        outcome := CheckReferenceList(componentReferences.items, sectionName);
      } else if componentReferences.Hash? {
        outcome := CheckReferenceList(HashPairs(componentReferences), sectionName);
      } else {
        return Fail(RuntimeFailure);
      }
    }

    /** The loop of `check_component_references`: the references in order,
        up to the first one refused. */
    method CheckReferenceList(refs: seq<Value>, sectionName: Value) returns (outcome: Outcome)
      requires components.Hash?
      modifies this
      ensures Usage(componentsUsed, warnings, outcome)
              == ResolveRefs(components, refs, sectionName, old(componentsUsed), old(warnings))
    {
      ResolveFromSuffix(components, refs, 0, sectionName, componentsUsed, warnings);
      assert refs[0..] == refs;
      var i := 0;
      outcome := Pass;
      while i < |refs|
        invariant 0 <= i <= |refs|
        invariant outcome == Pass
        invariant ResolveFrom(components, refs, i, sectionName, componentsUsed, warnings)
                  == ResolveRefs(components, refs, sectionName, old(componentsUsed), old(warnings))
      {
        outcome := CheckComponentReference(refs[i], sectionName);
        if outcome.Fail? {
          return;
        }
        i := i + 1;
      }
    }

    /** `check_config_section`: the section's own checks, then its
        component references when it lists any. */
    method CheckConfigSection(sectionName: Value, sections: Value) returns (outcome: Outcome)
      requires components.Hash? && sections.Hash?
      modifies this
      ensures Usage(componentsUsed, warnings, outcome)
              == SectionRun(components, sections, sectionName, old(componentsUsed), old(warnings))
    {
      var checked := CheckSection(sections, sectionName);
      warnings := warnings + checked.warnings;
      if checked.outcome.Fail? {
        return checked.outcome;
      }
      var section := Lookup(sections, sectionName);
      if HasKey(section, "components") {
        outcome := CheckComponentReferences(Get(section, "components"), sectionName);
      } else {
        outcome := Pass;
      }
    }

    /** `check_configurations`: the mandatory keys, the shapes of
        `section_order` and `sections`, their agreement, then the default
        component list from an emptied usage list and every section in the
        listed order. */
    method CheckConfigurations() returns (outcome: Outcome)
      requires components.Hash?
      modifies this
      ensures Usage(componentsUsed, warnings, outcome)
              == ConfigRun(components, configurations, old(componentsUsed), old(warnings))
    {
      if !configurations.Hash? {
        return Fail(RuntimeFailure);
      }
      var k := FirstMissing(ConfigurationKeys, configurations);
      if k < |ConfigurationKeys| {
        return Fail(ConfigurationMissingKey(ConfigurationKeys[k]));
      }
      var sectionOrder := Get(configurations, "section_order");
      if ClassOf(sectionOrder) != ArrayClass {
        return Fail(SectionOrderNotArray);
      }
      var sections := Get(configurations, "sections");
      if ClassOf(sections) != HashClass {
        return Fail(SectionsNotHash);
      }
      var missingSections := MissingKeys(sectionOrder.items, sections);
      if missingSections != [] {
        return Fail(UndefinedSections(missingSections));
      }
      var extraSections := ExtraKeys(sectionOrder.items, sections);
      if extraSections != [] {
        return Fail(UnorderedSections(extraSections));
      }
      componentsUsed := [];
      outcome := CheckComponentReferences(Get(configurations, "components"), DefaultContext);
      if outcome.Fail? {
        return;
      }
      var order := sectionOrder.items;
      ghost var target := SectionsRun(components, sections, order, componentsUsed, warnings);
      var i := 0;
      while i < |order|
        invariant 0 <= i <= |order|
        invariant outcome == Pass
        invariant SectionsRun(components, sections, order[i..], componentsUsed, warnings) == target
      {
        SectionsRunStep(components, sections, order, i, componentsUsed, warnings);
        outcome := CheckConfigSection(order[i], sections);
        if outcome.Fail? {
          return;
        }
        i := i + 1;
      }
      assert order[i..] == [];
    }

    /** `check_unused_components`: the component ids, in table order, that
        the usage list does not hold. */
    method CheckUnusedComponents() returns (unused: seq<string>)
      requires components.Hash?
      ensures unused == KeysNotIn(components.keys, componentsUsed)
      ensures forall id :: id in unused <==> id in components.keys && Str(id) !in componentsUsed
    {
      unused := [];
      var i := 0;
      while i < |components.keys|
        invariant 0 <= i <= |components.keys|
        invariant unused == KeysNotIn(components.keys[..i], componentsUsed)
      {
        assert components.keys[..i + 1][..i] == components.keys[..i];
        var componentId := components.keys[i];
        if Str(componentId) !in componentsUsed {
          unused := unused + [componentId];
        }
        i := i + 1;
      }
      assert components.keys[..i] == components.keys;
      KeysNotInMembers(components.keys, componentsUsed);
    }

    /** `test`: suppliers, components, configurations, then the unused
        report; the first error ends the run. */
    method Test() returns (outcome: Outcome, unused: seq<string>)
      modifies this
      ensures Verdict(warnings, componentsUsed, outcome, unused)
              == Validate(suppliers, components, configurations, old(componentsUsed), old(warnings))
    {
      unused := [];
      if !suppliers.Hash? {
        return Fail(RuntimeFailure), [];
      }
      outcome := CheckSuppliers(suppliers);
      if outcome.Fail? {
        return;
      }
      if !components.Hash? {
        return Fail(RuntimeFailure), [];
      }
      var checked := CheckComponents(suppliers, components);
      warnings := warnings + checked.warnings;
      if checked.outcome.Fail? {
        return checked.outcome, [];
      }
      outcome := CheckConfigurations();
      if outcome.Fail? {
        return;
      }
      unused := CheckUnusedComponents();
    }
  }

  /** The run passes exactly when the database is acceptable, and lists
      unused components only when it passes. */
  lemma ValidateOutcome(suppliers: Value, components: Value, configurations: Value, used: seq<Value>, ws: seq<Warning>)
    ensures var v := Validate(suppliers, components, configurations, used, ws);
            && (v.outcome.Pass? <==> DatabaseOk(suppliers, components, configurations))
            && (v.outcome.Fail? ==> v.unused == [])
  {
    if suppliers.Hash? && CheckSuppliers(suppliers).Pass? && components.Hash? {
      var c := CheckComponents(suppliers, components);
      if c.outcome.Pass? {
        ConfigRunFacts(components, configurations, used, ws + c.warnings);
      }
    }
  }

  /** After a run that passes, the usage list has no repeats and holds
      exactly the configuration's usage set, and the report lists exactly
      the component ids outside that set. */
  lemma ValidateReport(suppliers: Value, components: Value, configurations: Value, used: seq<Value>, ws: seq<Warning>)
    requires Validate(suppliers, components, configurations, used, ws).outcome.Pass?
    ensures components.Hash?
    ensures var v := Validate(suppliers, components, configurations, used, ws);
            && NoDuplicates(v.used)
            && Elems(v.used) == ConfigIds(components, configurations)
            && (forall id :: id in v.unused <==>
                  id in components.keys && Str(id) !in ConfigIds(components, configurations))
  {
    var c := CheckComponents(suppliers, components);
    ConfigRunFacts(components, configurations, used, ws + c.warnings);
    var run := ConfigRun(components, configurations, used, ws + c.warnings);
    assert Validate(suppliers, components, configurations, used, ws)
           == Verdict(run.warnings, run.used, Pass, KeysNotIn(components.keys, run.used));
    KeysNotInMembers(components.keys, run.used);
  }

  /** Every id of an accepted reference list, replacements included, names
      a component, once every component's replacement resolves. */
  lemma {:induction false} RefsIdsAreComponents(components: Value, supplierNames: seq<string>, refs: seq<Value>)
    requires components.Hash? && WellKeyed(components)
    requires forall n :: n in components.keys ==> ComponentOk(components, supplierNames, Get(components, n))
    ensures forall v :: v in RefsIds(components, refs) ==> IsKeyOf(v, components)
  {
    if refs != [] {
      RefsIdsAreComponents(components, supplierNames, refs[1..]);
      var ref := refs[0];
      if RefAccepted(components, ref) {
        var id := Normalize(ref).items[1];
        assert id.s in components.keys;
        assert ComponentOk(components, supplierNames, Get(components, id.s));
      }
    }
  }

  lemma {:induction false} SectionsIdsAreComponents(components: Value, supplierNames: seq<string>, sections: Value, names: seq<Value>)
    requires components.Hash? && WellKeyed(components) && sections.Hash?
    requires forall n :: n in components.keys ==> ComponentOk(components, supplierNames, Get(components, n))
    ensures forall v :: v in SectionsIds(components, sections, names) ==> IsKeyOf(v, components)
  {
    if names != [] {
      SectionsIdsAreComponents(components, supplierNames, sections, names[1..]);
      var s := Lookup(sections, names[0]);
      if s.Hash? && HasKey(s, "components") && Iterable(Get(s, "components")) {
        RefsIdsAreComponents(components, supplierNames, Iterated(Get(s, "components")));
      }
    }
  }

  /** After a run that passes, the usage list names components only, so
      every component id is either used or reported unused. */
  lemma UsedAreComponents(suppliers: Value, components: Value, configurations: Value, used: seq<Value>, ws: seq<Warning>)
    requires components.Hash? && WellKeyed(components)
    requires Validate(suppliers, components, configurations, used, ws).outcome.Pass?
    ensures var v := Validate(suppliers, components, configurations, used, ws);
            && (forall x :: x in v.used ==> IsKeyOf(x, components))
            && (forall id :: id in components.keys ==> (Str(id) in v.used <==> id !in v.unused))
  {
    ValidateReport(suppliers, components, configurations, used, ws);
    var v := Validate(suppliers, components, configurations, used, ws);
    assert forall x :: x in v.used ==> x in Elems(v.used);
    var refs := Get(configurations, "components");
    if Iterable(refs) {
      RefsIdsAreComponents(components, suppliers.keys, Iterated(refs));
    }
    SectionsIdsAreComponents(components, suppliers.keys, configurations.fields["sections"],
                             Get(configurations, "section_order").items);
  }
}
