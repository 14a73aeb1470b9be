/**
 * Pass 3, `check_configurations`, specified on values: the configuration's
 * mandatory keys, the agreement of `section_order` with the keys of
 * `sections`, the default component list, then each section in the listed
 * order. `ConfigRun` is what the imperative pass computes; `ConfigOk` and
 * `ConfigIds` state, independently of the walk, when it passes and what
 * the usage set then holds.
 */
module Configurations {
  import opened Values
  import opened Diagnostics
  import opened KeyDiff
  import opened References
  import opened Sections

  const ConfigurationKeys: seq<string> := ["title", "description", "components", "sections", "section_order"]

  /** The context the default component list is resolved under. */
  const DefaultContext: Value := Str("Default")

  /** `check_config_section`: the section's own checks, then its references. */
  function SectionRun(components: Value, sections: Value, name: Value, used: seq<Value>, ws: seq<Warning>): Usage
    requires components.Hash? && sections.Hash?
  {
    var checked := CheckSection(sections, name);
    if checked.outcome.Fail? then Usage(used, ws + checked.warnings, checked.outcome)
    else
      var s := Lookup(sections, name);
      if HasKey(s, "components") then
        ResolveRefValue(components, Get(s, "components"), name, used, ws + checked.warnings)
      else Usage(used, ws + checked.warnings, Pass)
  }

  /** The `section_order.each` loop. */
  function SectionsRun(components: Value, sections: Value, names: seq<Value>, used: seq<Value>, ws: seq<Warning>): Usage
    requires components.Hash? && sections.Hash?
  {
    if names == [] then Usage(used, ws, Pass)
    else
      var first := SectionRun(components, sections, names[0], used, ws);
      if first.outcome.Fail? then first
      else SectionsRun(components, sections, names[1..], first.used, first.warnings)
  }

  /** One step of the section loop from position `i` of the order. */
  lemma SectionsRunStep(components: Value, sections: Value, names: seq<Value>, i: nat, used: seq<Value>, ws: seq<Warning>)
    requires components.Hash? && sections.Hash? && i < |names|
    ensures var step := SectionRun(components, sections, names[i], used, ws);
            SectionsRun(components, sections, names[i..], used, ws)
            == if step.outcome.Fail? then step else SectionsRun(components, sections, names[i + 1..], step.used, step.warnings)
  {
    assert names[i..][0] == names[i] && names[i..][1..] == names[i + 1..];
  }

  /** The configuration has its mandatory keys, a `section_order` list and
      a `sections` hash. */
  predicate ConfigShaped(config: Value) {
    && config.Hash?
    && HasKey(config, "title") && HasKey(config, "description") && HasKey(config, "components")
    && HasKey(config, "sections") && HasKey(config, "section_order")
    && Get(config, "section_order").List?
    && Get(config, "sections").Hash?
  }

  /** The checks before the usage list is emptied: the mandatory keys, in
      order, the classes of `section_order` and `sections`, then the two
      halves of their comparison. They pass exactly when the configuration
      is shaped and its two section lists name the same sections. */
  function CheckConfigShape(config: Value): (r: Outcome)
    ensures r.Pass? <==>
              && ConfigShaped(config)
              && (forall v :: v in Get(config, "section_order").items ==> IsKeyOf(v, Get(config, "sections")))
              && (forall k :: k in Get(config, "sections").keys ==> Str(k) in Get(config, "section_order").items)
  {
    if !config.Hash? then Fail(RuntimeFailure)
    else
      var k := FirstMissing(ConfigurationKeys, config);
      assert ConfigurationKeys[0] == "title" && ConfigurationKeys[1] == "description";
      assert ConfigurationKeys[2] == "components" && ConfigurationKeys[3] == "sections";
      assert ConfigurationKeys[4] == "section_order";
      if k < |ConfigurationKeys| then Fail(ConfigurationMissingKey(ConfigurationKeys[k]))
      else
        var order := Get(config, "section_order");
        if ClassOf(order) != ArrayClass then Fail(SectionOrderNotArray)
        else
          var sections := Get(config, "sections");
          if ClassOf(sections) != HashClass then Fail(SectionsNotHash)
          else
            var missing := NotKeysOf(order.items, sections);
            NotKeysOfMembers(order.items, sections);
            if missing != [] then assert missing[0] in missing; Fail(UndefinedSections(missing))
            else
              var extra := KeysNotIn(sections.keys, order.items);
              KeysNotInMembers(sections.keys, order.items);
              if extra != [] then assert extra[0] in extra; Fail(UnorderedSections(extra))
              else Pass
  }

  /** `check_configurations`, from the usage list and warnings it finds.
      The usage list is emptied only once the section lists agree. */
  function ConfigRun(components: Value, config: Value, used: seq<Value>, ws: seq<Warning>): Usage
    requires components.Hash?
  {
    var shape := CheckConfigShape(config);
    if shape.Fail? then Usage(used, ws, shape)
    else
      var defaults := ResolveRefValue(components, Get(config, "components"), DefaultContext, [], ws);
      if defaults.outcome.Fail? then defaults
      else SectionsRun(components, Get(config, "sections"), Get(config, "section_order").items,
                       defaults.used, defaults.warnings)
  }

  /** A component list the run accepts: a list, or a hash, whose elements
      are all accepted references. */
  predicate RefsAccepted(components: Value, refs: Value)
    requires components.Hash?
  {
    Iterable(refs) && forall r :: r in Iterated(refs) ==> RefAccepted(components, r)
  }

  /** A section the run accepts, component references included. */
  predicate SectionOk(components: Value, sections: Value, name: Value)
    requires components.Hash? && sections.Hash?
  {
    && SectionShapeOk(sections, name)
    && (HasKey(Lookup(sections, name), "components") ==>
          RefsAccepted(components, Get(Lookup(sections, name), "components")))
  }

  /** A configuration the pass accepts, stated without the walk. */
  predicate ConfigOk(components: Value, config: Value)
    requires components.Hash?
  {
    && config.Hash?
    && HasKey(config, "title") && HasKey(config, "description") && HasKey(config, "components")
    && HasKey(config, "sections") && HasKey(config, "section_order")
    && Get(config, "section_order").List?
    && Get(config, "sections").Hash?
    && var order, sections := Get(config, "section_order").items, Get(config, "sections");
       && (forall v :: v in order ==> IsKeyOf(v, sections))
       && (forall k :: k in sections.keys ==> Str(k) in order)
       && RefsAccepted(components, Get(config, "components"))
       && (forall v :: v in order ==> SectionOk(components, sections, v))
  }

  /** The usage-set contribution of a component list (none if `each`
      cannot walk it). */
  function ListIds(components: Value, refs: Value): set<Value>
    requires components.Hash?
  {
    if Iterable(refs) then RefsIds(components, Iterated(refs)) else {}
  }

  /** What the sections named by `names` contribute to the usage set. */
  function SectionsIds(components: Value, sections: Value, names: seq<Value>): set<Value>
    requires components.Hash? && sections.Hash?
  {
    if names == [] then {}
    else
      var s := Lookup(sections, names[0]);
      (if s.Hash? && HasKey(s, "components") then ListIds(components, Get(s, "components")) else {})
      + SectionsIds(components, sections, names[1..])
  }

  /** The usage set of a configuration: the default list's contribution and
      that of every section in `section_order`. */
  function ConfigIds(components: Value, config: Value): set<Value>
    requires components.Hash?
  {
    if config.Hash? && Get(config, "section_order").List? && Get(config, "sections").Hash? then
      ListIds(components, Get(config, "components"))
      + SectionsIds(components, config.fields["sections"], Get(config, "section_order").items)
    else {}
  }

  lemma SectionRunFacts(components: Value, sections: Value, name: Value, used: seq<Value>, ws: seq<Warning>)
    requires components.Hash? && sections.Hash?
    ensures var u := SectionRun(components, sections, name, used, ws);
            && (u.outcome.Pass? <==> SectionOk(components, sections, name))
            && (NoDuplicates(used) ==> NoDuplicates(u.used))
            && |used| <= |u.used| && u.used[..|used|] == used
            && (u.outcome.Pass? ==>
                  var s := Lookup(sections, name);
                  Elems(u.used) == Elems(used) + if s.Hash? && HasKey(s, "components") then ListIds(components, Get(s, "components")) else {})
  {
    var checked := CheckSection(sections, name);
    if checked.outcome.Pass? {
      var s := Lookup(sections, name);
      if HasKey(s, "components") {
        var refs := Get(s, "components");
        if Iterable(refs) {
          ResolveRefsOutcome(components, Iterated(refs), name, used, ws + checked.warnings);
          ResolveRefsUsage(components, Iterated(refs), name, used, ws + checked.warnings);
          ResolveRefsGrows(components, Iterated(refs), name, used, ws + checked.warnings);
        }
      }
    }
  }

  lemma {:induction false} SectionsRunFacts(components: Value, sections: Value, names: seq<Value>, used: seq<Value>, ws: seq<Warning>)
    requires components.Hash? && sections.Hash?
    ensures var u := SectionsRun(components, sections, names, used, ws);
            && (u.outcome.Pass? <==> forall v :: v in names ==> SectionOk(components, sections, v))
            && (NoDuplicates(used) ==> NoDuplicates(u.used))
            && (u.outcome.Pass? ==> Elems(u.used) == Elems(used) + SectionsIds(components, sections, names))
  {
    if names != [] {
      SectionRunFacts(components, sections, names[0], used, ws);
      var first := SectionRun(components, sections, names[0], used, ws);
      if first.outcome.Pass? {
        SectionsRunFacts(components, sections, names[1..], first.used, first.warnings);
        var u := SectionsRun(components, sections, names[1..], first.used, first.warnings);
        assert SectionsRun(components, sections, names, used, ws) == u;
        assert forall v :: v in names <==> v == names[0] || v in names[1..];
        var s := Lookup(sections, names[0]);
        assert SectionsIds(components, sections, names)
               == (if s.Hash? && HasKey(s, "components") then ListIds(components, Get(s, "components")) else {})
                  + SectionsIds(components, sections, names[1..]);
      } else {
        assert SectionsRun(components, sections, names, used, ws) == first;
        assert names[0] in names;
      }
    }
  }

  /** The pass succeeds exactly when the configuration is acceptable, and
      then leaves a usage list without repeats holding exactly the
      configuration's usage set, whatever the list held before. */
  lemma ConfigRunFacts(components: Value, config: Value, used: seq<Value>, ws: seq<Warning>)
    requires components.Hash?
    ensures var u := ConfigRun(components, config, used, ws);
            && (u.outcome.Pass? <==> ConfigOk(components, config))
            && (u.outcome.Pass? ==> NoDuplicates(u.used) && Elems(u.used) == ConfigIds(components, config))
  {
    if CheckConfigShape(config).Pass? {
      var order := Get(config, "section_order").items;
      var sections := Get(config, "sections");
      var refs := Get(config, "components");
      if Iterable(refs) {
        ResolveRefsOutcome(components, Iterated(refs), DefaultContext, [], ws);
        ResolveRefsUsage(components, Iterated(refs), DefaultContext, [], ws);
        ResolveRefsGrows(components, Iterated(refs), DefaultContext, [], ws);
        var defaults := ResolveRefs(components, Iterated(refs), DefaultContext, [], ws);
        if defaults.outcome.Pass? {
          SectionsRunFacts(components, sections, order, defaults.used, defaults.warnings);
        }
      }
    }
  }
}
