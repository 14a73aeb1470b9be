/**
 * Pass 2, `check_components`: every component has a title; an obsolete one
 * is judged only by its replacement; any other one needs a supply table
 * whose entries for the known suppliers are well formed, a datasheet URL
 * or a description, and a replacement (if it names one) that exists.
 */
module Components {
  import opened Values
  import opened Diagnostics

  const ComponentKeys: seq<string> := ["title"]

  predicate StartsWith(s: string, prefix: string) {
    |prefix| <= |s| && s[..|prefix|] == prefix
  }

  /** `valid_url?`: an http or https address of more than ten characters. */
  predicate ValidUrl(url: string) {
    (StartsWith(url, "http://") || StartsWith(url, "https://")) && |url| > 10
  }

  /** What the length rule leaves for the rest of the address after each scheme. */
  lemma UrlRestLength(rest: string)
    ensures ValidUrl("http://" + rest) <==> |rest| >= 4
    ensures ValidUrl("https://" + rest) <==> |rest| >= 3
  {
    assert ("http://" + rest)[..7] == "http://";
    assert ("https://" + rest)[..8] == "https://";
    assert ("https://" + rest)[..7] != "http://" by {
      assert ("https://" + rest)[..7][4] == 's';
    }
  }

  /** Every accepted address begins with "http": an ftp or mailto address
      is refused however long it is. */
  lemma ValidUrlIsHttp(url: string)
    ensures ValidUrl(url) ==> |url| > 10 && url[..4] == "http"
  {
    if ValidUrl(url) {
      if StartsWith(url, "http://") {
        assert url[..4] == url[..7][..4];
      } else {
        assert url[..4] == url[..8][..4];
      }
    }
  }

  /** A supply specification `validate_supply` accepts. */
  predicate SupplyOk(spec: Value) {
    && spec.Hash?
    && Get(spec, "part").Str?
    && (Get(spec, "price").Float? || (Get(spec, "price").Int? && FixnumMin <= Get(spec, "price").i <= FixnumMax))
  }

  /** `str[sub]` on a Ruby string answers `sub` when it occurs in `str`, nil
      otherwise. */
  predicate Contains(str: string, sub: string) {
    StartsWith(str, sub) || (str != [] && Contains(str[1..], sub))
  }

  /** `validate_supply`: the part number is checked before the price. A
      string specification is indexed as a string: `spec['part']` is the
      text "part" or nil, and `spec['price']` is never a number. Any other
      value that is not a hash makes Ruby raise. */
  function ValidateSupply(component: string, supplier: string, spec: Value): (r: Outcome)
    ensures r.Pass? <==> SupplyOk(spec)
    ensures spec.Hash? && !Get(spec, "part").Str? ==> r == Fail(InvalidPart(component, supplier))
    ensures spec.Hash? && Get(spec, "part").Str? && !SupplyOk(spec) ==> r == Fail(InvalidPrice(component, supplier))
    ensures spec.Str? ==>
              r == if Contains(spec.s, "part") then Fail(InvalidPrice(component, supplier))
                   else Fail(InvalidPart(component, supplier))
    ensures !spec.Hash? && !spec.Str? ==> r == Fail(RuntimeFailure)
  {
    if spec.Str? then
      if !Contains(spec.s, "part") then Fail(InvalidPart(component, supplier))
      else Fail(InvalidPrice(component, supplier))
    else if !spec.Hash? then Fail(RuntimeFailure)
    else if ClassOf(Get(spec, "part")) != StringClass then Fail(InvalidPart(component, supplier))
    else if ClassOf(Get(spec, "price")) !in {FloatClass, FixnumClass} then Fail(InvalidPrice(component, supplier))
    else Pass
  }

  /** The supply-coverage warnings: one per known supplier that the
      component's supply table has no entry for, in supplier order. */
  function SupplyGaps(component: string, supply: Value, names: seq<string>): (gaps: seq<Warning>)
    requires supply.Hash?
    ensures |gaps| <= |names|
    ensures forall i :: 0 <= i < |gaps| ==>
              && gaps[i].NoSupplyInformation?
              && gaps[i].component == component
              && gaps[i].supplier in names
              && !HasKey(supply, gaps[i].supplier)
    ensures forall n :: n in names && !HasKey(supply, n) ==> NoSupplyInformation(component, n) in gaps
  {
    if names == [] then []
    else
      var rest := SupplyGaps(component, supply, names[1..]);
      if HasKey(supply, names[0]) then rest else [NoSupplyInformation(component, names[0])] + rest
  }

  /** The gaps of a supplier list are those of its parts, in order, and a
      single supplier gives one warning exactly when the table lacks it: so
      there is one warning per missing supplier, in supplier-table order. */
  lemma {:induction false} SupplyGapsAppend(component: string, supply: Value, a: seq<string>, b: seq<string>)
    requires supply.Hash?
    ensures SupplyGaps(component, supply, a + b) == SupplyGaps(component, supply, a) + SupplyGaps(component, supply, b)
    ensures forall n :: SupplyGaps(component, supply, [n])
                        == if HasKey(supply, n) then [] else [NoSupplyInformation(component, n)]
  {
    if a != [] {
      assert (a + b)[0] == a[0] && (a + b)[1..] == a[1..] + b;
      SupplyGapsAppend(component, supply, a[1..], b);
    } else {
      assert a + b == b;
    }
    forall n ensures SupplyGaps(component, supply, [n])
                     == if HasKey(supply, n) then [] else [NoSupplyInformation(component, n)] {
      assert [n][1..] == [];
    }
  }

  /** With distinct supplier names, no gap is warned about twice. */
  lemma {:induction false} SupplyGapsDistinct(component: string, supply: Value, names: seq<string>)
    requires supply.Hash? && NoDuplicates(names)
    ensures NoDuplicates(SupplyGaps(component, supply, names))
  {
    if names != [] {
      var tail := names[1..];
      assert NoDuplicates(tail) by {
        forall i, j | 0 <= i < j < |tail| ensures tail[i] != tail[j] {
          assert tail[i] == names[i + 1] && tail[j] == names[j + 1];
        }
      }
      SupplyGapsDistinct(component, supply, tail);
      var rest := SupplyGaps(component, supply, tail);
      if !HasKey(supply, names[0]) {
        assert names[0] !in tail by {
          forall k | 0 <= k < |tail| ensures tail[k] != names[0] {
            assert tail[k] == names[k + 1];
          }
        }
        var w := NoSupplyInformation(component, names[0]);
        assert w !in rest;
        var gaps := [w] + rest;
        forall i, j | 0 <= i < j < |gaps| ensures gaps[i] != gaps[j] {
          if i > 0 {
            assert gaps[i] == rest[i - 1] && gaps[j] == rest[j - 1];
          } else {
            assert gaps[j] == rest[j - 1];
          }
        }
      }
    }
  }

  /** The loop over the supplier table: an entry for a known supplier is
      validated, a missing entry only warns. */
  function CheckSupplies(component: string, supply: Value, names: seq<string>): (r: Checked)
    requires supply.Hash?
    ensures r.outcome.Pass? <==> forall n :: n in names && HasKey(supply, n) ==> SupplyOk(Get(supply, n))
    ensures r.outcome.Pass? ==> r.warnings == SupplyGaps(component, supply, names)
  {
    if names == [] then Checked([], Pass)
    else if HasKey(supply, names[0]) then
      var o := ValidateSupply(component, names[0], Get(supply, names[0]));
      if o.Fail? then Checked([], o) else CheckSupplies(component, supply, names[1..])
    else
      var rest := CheckSupplies(component, supply, names[1..]);
      Checked([NoSupplyInformation(component, names[0])] + rest.warnings, rest.outcome)
  }

  /** A named replacement must be a component of the table. */
  predicate ReplacementResolves(components: Value, c: Value)
    requires components.Hash? && c.Hash?
  {
    HasKey(c, "replacement") ==> IsKeyOf(Get(c, "replacement"), components)
  }

  /** A datasheet, when given, is a string shaped like a web address;
      without one a description must be present. */
  predicate Documented(c: Value)
    requires c.Hash?
  {
    if HasKey(c, "datasheet") then Get(c, "datasheet").Str? && ValidUrl(Get(c, "datasheet").s)
    else HasKey(c, "description")
  }

  /** A component record the pass accepts. `supplierNames` are the keys of
      the supplier table. */
  predicate ComponentOk(components: Value, supplierNames: seq<string>, c: Value)
    requires components.Hash?
  {
    && c.Hash?
    && HasKey(c, "title")
    && ReplacementResolves(components, c)
    && (!Truthy(Get(c, "obsolete")) ==>
          && Get(c, "suppliers").Hash?
          && (forall n :: n in supplierNames && HasKey(Get(c, "suppliers"), n) ==>
                SupplyOk(Get(Get(c, "suppliers"), n)))
          && Documented(c))
  }

  /** The datasheet-or-description rule, datasheet type before format. */
  function CheckDocumentation(id: string, c: Value): (r: Outcome)
    requires c.Hash?
    ensures r.Pass? <==> Documented(c)
    ensures HasKey(c, "datasheet") && !Get(c, "datasheet").Str? ==> r == Fail(InvalidDatasheetType(id))
    ensures HasKey(c, "datasheet") && Get(c, "datasheet").Str? && !Documented(c) ==> r == Fail(InvalidDatasheetFormat(id))
    ensures !HasKey(c, "datasheet") && !Documented(c) ==> r == Fail(MissingDatasheet(id))
  {
    if HasKey(c, "datasheet") then
      var datasheet := Get(c, "datasheet");
      if ClassOf(datasheet) != StringClass then Fail(InvalidDatasheetType(id))
      else if !ValidUrl(datasheet.s) then Fail(InvalidDatasheetFormat(id))
      else Pass
    else if !HasKey(c, "description") then Fail(MissingDatasheet(id))
    else Pass
  }

  /** One component, as the body of the `components.each_key` loop. */
  function CheckComponent(components: Value, supplierNames: seq<string>, id: string, c: Value): (r: Checked)
    requires components.Hash?
    ensures r.outcome.Pass? <==> ComponentOk(components, supplierNames, c)
    ensures c.Hash? && !HasKey(c, "title") ==> r.outcome == Fail(ComponentMissingKey(id, "title"))
    // an obsolete component only warns when it names no replacement
    ensures c.Hash? && HasKey(c, "title") && Truthy(Get(c, "obsolete")) ==>
              r.warnings == if HasKey(c, "replacement") then [] else [ObsoleteNoReplacement(id)]
    // a current component without a supply table is an error, not a warning
    ensures c.Hash? && HasKey(c, "title") && !Truthy(Get(c, "obsolete")) && !Get(c, "suppliers").Hash? ==>
              r.outcome == Fail(InvalidSupplySpecification(id))
    ensures c.Hash? && !Truthy(Get(c, "obsolete")) && r.outcome.Pass? ==>
              r.warnings == SupplyGaps(id, Get(c, "suppliers"), supplierNames)
  {
    if !c.Hash? then Checked([], Fail(RuntimeFailure))
    else if FirstMissing(ComponentKeys, c) < |ComponentKeys| then
      Checked([], Fail(ComponentMissingKey(id, ComponentKeys[0])))
    else if Truthy(Get(c, "obsolete")) then
      if HasKey(c, "replacement") then
        if IsKeyOf(Get(c, "replacement"), components) then Checked([], Pass)
        else Checked([], Fail(MissingObsoleteReplacement(id)))
      else Checked([ObsoleteNoReplacement(id)], Pass)
    else
      var supply := Get(c, "suppliers");
      if ClassOf(supply) != HashClass then Checked([], Fail(InvalidSupplySpecification(id)))
      else
        var s := CheckSupplies(id, supply, supplierNames);
        if s.outcome.Fail? then s
        else
          var d := CheckDocumentation(id, c);
          if d.Fail? then Checked(s.warnings, d)
          else if HasKey(c, "replacement") && !IsKeyOf(Get(c, "replacement"), components) then
            Checked(s.warnings, Fail(MissingReplacement(id)))
          else Checked(s.warnings, Pass)
  }

  /** The warnings an accepted component earns: an obsolete one without a
      replacement is flagged, a current one warns about its supply gaps. */
  function ComponentWarnings(supplierNames: seq<string>, id: string, c: Value): seq<Warning>
    requires c.Hash?
  {
    if Truthy(Get(c, "obsolete")) then
      if HasKey(c, "replacement") then [] else [ObsoleteNoReplacement(id)]
    else if Get(c, "suppliers").Hash? then SupplyGaps(id, Get(c, "suppliers"), supplierNames)
    else []
  }

  /** The warnings of the components named by `names`, in that order. */
  function AllComponentWarnings(components: Value, supplierNames: seq<string>, names: seq<string>): seq<Warning>
    requires components.Hash?
  {
    if names == [] then []
    else
      var c := Get(components, names[0]);
      (if c.Hash? then ComponentWarnings(supplierNames, names[0], c) else [])
      + AllComponentWarnings(components, supplierNames, names[1..])
  }

  /** The components named by `names`, in order, up to the first error; the
      warnings of all components visited are kept. */
  function CheckComponentList(components: Value, supplierNames: seq<string>, names: seq<string>): (r: Checked)
    requires components.Hash?
    ensures r.outcome.Pass? <==> forall n :: n in names ==> ComponentOk(components, supplierNames, Get(components, n))
    ensures r.outcome.Pass? ==> r.warnings == AllComponentWarnings(components, supplierNames, names)
  {
    if names == [] then Checked([], Pass)
    else
      var first := CheckComponent(components, supplierNames, names[0], Get(components, names[0]));
      if first.outcome.Fail? then first
      else
        var rest := CheckComponentList(components, supplierNames, names[1..]);
        Checked(first.warnings + rest.warnings, rest.outcome)
  }

  /** `check_components`: every component of the table, in table order. */
  function CheckComponents(suppliers: Value, components: Value): (r: Checked)
    requires suppliers.Hash? && components.Hash?
    ensures r.outcome.Pass? <==>
              forall n :: n in components.keys ==> ComponentOk(components, suppliers.keys, Get(components, n))
    ensures r.outcome.Pass? ==> r.warnings == AllComponentWarnings(components, suppliers.keys, components.keys)
  {
    CheckComponentList(components, suppliers.keys, components.keys)
  }

  /** An obsolete component is judged by its title and replacement alone:
      two obsolete records that agree on those get the same verdict and the
      same warnings, whatever their supply tables, datasheets or descriptions. */
  lemma ObsoleteSkipsOtherChecks(components: Value, supplierNames: seq<string>, id: string, c: Value, d: Value)
    requires components.Hash? && c.Hash? && d.Hash?
    requires Truthy(Get(c, "obsolete")) && Truthy(Get(d, "obsolete"))
    requires HasKey(c, "title") == HasKey(d, "title")
    requires HasKey(c, "replacement") == HasKey(d, "replacement")
    requires Get(c, "replacement") == Get(d, "replacement")
    ensures CheckComponent(components, supplierNames, id, c) == CheckComponent(components, supplierNames, id, d)
  {
    assert ComponentKeys[0] == "title";
  }
}
