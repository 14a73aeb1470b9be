/**
 * Small databases run through the checks, one behaviour each: what the
 * checker reports for a component without a supply table, an empty supply
 * table, an ftp datasheet, a section whose minimum exceeds its maximum,
 * an empty hash as the default component list, and a whole run over a
 * database that passes with an unused component.
 */
module Scenarios {
  import opened Values
  import opened Suppliers
  import opened KeyDiff
  import opened Diagnostics
  import opened Components
  import opened References
  import opened Sections
  import opened Configurations
  import opened Validator

  const Supplier: Value := Hash(["title", "homepage", "currency"],
    map["title" := Str("Parts Inc"), "homepage" := Str("http://parts.example"), "currency" := Str("EUR")])

  const SupplierTable: Value := Hash(["parts"], map["parts" := Supplier])

  /** A current component with a description and the given extra field. */
  function Resistor(extra: map<string, Value>): Value {
    Hash(["title", "description"] + (if "suppliers" in extra then ["suppliers"] else []),
         map["title" := Str("Resistor"), "description" := Str("10k")] + extra)
  }

  /** A current component without `suppliers` is refused: `nil` is not a
      Hash, so the supply check reports an invalid supply specification. */
  lemma MissingSupplyTableRefused(components: Value)
    requires components.Hash?
    ensures CheckComponent(components, ["parts"], "R1", Resistor(map[])).outcome
            == Fail(InvalidSupplySpecification("R1"))
  {
    assert ComponentKeys[0] == "title";
  }

  /** An empty supply table passes, with one warning per known supplier. */
  lemma EmptySupplyTableWarns(components: Value, id: string)
    requires components.Hash?
    ensures CheckComponent(components, ["parts"], id, Resistor(map["suppliers" := Hash([], map[])]))
            == Checked([NoSupplyInformation(id, "parts")], Pass)
  {
    assert ComponentKeys[0] == "title";
  }

  /** An ftp address is refused as a datasheet, however long it is. */
  lemma FtpDatasheetRefused()
    ensures CheckDocumentation("R1", Hash(["title", "datasheet"],
              map["title" := Str("Resistor"), "datasheet" := Str("ftp://files.example/r1.pdf")]))
            == Fail(InvalidDatasheetFormat("R1"))
  {
    var url := "ftp://files.example/r1.pdf";
    assert url[4] != "http://"[4];
    assert url[4] != "https://"[4];
    assert !StartsWith(url, "http://") && !StartsWith(url, "https://") by {
      assert url[..7][4] != "http://"[4];
      assert url[..8][4] != "https://"[4];
    }
  }

  /** With `min: 5`, `max: 3` and `value: 4`, the range checks stop at the
      minimum exceeding the maximum. */
  lemma MinAboveMaxReportedFirst()
    ensures var section := Hash(["title", "description", "value", "min", "max"],
              map["title" := Str("Gain"), "description" := Str("Gain stage"),
                  "value" := Int(4), "min" := Int(5), "max" := Int(3)]);
            var sections := Hash(["gain"], map["gain" := section]);
            CheckSection(sections, Str("gain"))
            == Checked([SectionWithoutComponents(Str("gain"))], Fail(MinAboveMax(Str("gain"))))
  {
    var section := Hash(["title", "description", "value", "min", "max"],
      map["title" := Str("Gain"), "description" := Str("Gain stage"),
          "value" := Int(4), "min" := Int(5), "max" := Int(3)]);
    var sections := Hash(["gain"], map["gain" := section]);
    assert Lookup(sections, Str("gain")) == section;
    assert WellTyped(section);
    assert FirstMissing(SectionKeys, section) == |SectionKeys| by {
      assert forall k :: k in SectionKeys ==> HasKey(section, k);
    }
    assert CheckFields(sections, Str("gain"), section) == Fail(MinAboveMax(Str("gain")));
  }

  const Part: Value := Resistor(map["suppliers" := Hash([], map[])])

  const Kit: Value := Hash(["title", "description", "components", "sections", "section_order"],
    map["title" := Str("Kit"), "description" := Str("A kit"), "components" := List([Str("R1")]),
        "sections" := Hash([], map[]), "section_order" := List([])])

  const Parts: Value := Hash(["R1", "C1"], map["R1" := Part, "C1" := Part])

  /** Both parts pass the component checks, each with a supply warning. */
  lemma PartsWarn()
    ensures CheckComponents(SupplierTable, Parts)
            == Checked([NoSupplyInformation("R1", "parts"), NoSupplyInformation("C1", "parts")], Pass)
  {
    EmptySupplyTableWarns(Parts, "R1");
    EmptySupplyTableWarns(Parts, "C1");
    assert Get(Parts, "R1") == Part && Get(Parts, "C1") == Part;
    assert Parts.keys[1..] == ["C1"] && Parts.keys[1..][1..] == [];
    assert CheckComponentList(Parts, ["parts"], ["C1"])
           == Checked([NoSupplyInformation("C1", "parts")], Pass);
  }

  /** The kit has its keys, and no sections to disagree about. */
  lemma KitShaped()
    ensures CheckConfigShape(Kit) == Pass
  {
    assert FirstMissing(ConfigurationKeys, Kit) == |ConfigurationKeys| by {
      assert forall k :: k in ConfigurationKeys ==> HasKey(Kit, k);
    }
    assert Get(Kit, "section_order") == List([]) && Get(Kit, "sections") == Hash([], map[]);
  }

  /** `R1` resolves to itself, with no warning. */
  lemma R1Resolves(ws: seq<Warning>)
    ensures ResolveOne(Parts, Str("R1"), DefaultContext, [], ws) == Usage([Str("R1")], ws, Pass)
  {
    assert Normalize(Str("R1")).items == [Int(1), Str("R1")];
    assert Parts.fields["R1"] == Part;
    assert !Truthy(Get(Part, "obsolete"));
  }

  /** The kit's default list puts `R1`, and only `R1`, in use. */
  lemma KitUsesR1(ws: seq<Warning>)
    ensures ConfigRun(Parts, Kit, [], ws) == Usage([Str("R1")], ws, Pass)
  {
    KitShaped();
    R1Resolves(ws);
    assert [Str("R1")][1..] == [];
    assert ResolveRefs(Parts, [Str("R1")], DefaultContext, [], ws) == Usage([Str("R1")], ws, Pass);
    assert Get(Kit, "components") == List([Str("R1")]);
    assert Get(Kit, "section_order").items == [];
  }

  /** The kit with an empty hash where its default component list belongs. */
  const HashKit: Value := Hash(Kit.keys, Kit.fields["components" := Hash([], map[])])

  /** `each` over an empty hash yields nothing, so the default references
      pass without using any component. */
  lemma EmptyHashDefaultListAccepted(ws: seq<Warning>)
    ensures ConfigRun(Parts, HashKit, [], ws) == Usage([], ws, Pass)
  {
    assert FirstMissing(ConfigurationKeys, HashKit) == |ConfigurationKeys| by {
      assert forall k :: k in ConfigurationKeys ==> HasKey(HashKit, k);
    }
    assert Get(HashKit, "section_order") == List([]) && Get(HashKit, "sections") == Hash([], map[]);
    assert CheckConfigShape(HashKit) == Pass;
    assert Get(HashKit, "components") == Hash([], map[]);
    HashListOutcome(Parts, Hash([], map[]), DefaultContext, [], ws);
  }

  /** The one supplier is complete and prices in euros. */
  lemma SupplierTableAccepted()
    ensures CheckSuppliers(SupplierTable) == Pass
  {
    assert Get(SupplierTable, "parts") == Supplier;
    assert SupplierOk(Supplier);
  }

  /** With `R1` in use, `C1` is the one unused part. */
  lemma C1Unused()
    ensures KeysNotIn(Parts.keys, [Str("R1")]) == ["C1"]
  {
    assert Parts.keys[..1] == ["R1"] && Parts.keys[..1][..0] == [];
  }

  /** A database whose default list uses `R1` only passes, warns that
      neither part has supply information, and reports `C1` unused. */
  lemma UnusedComponentReported()
    ensures Validate(SupplierTable, Parts, Kit, [], [])
            == Verdict([NoSupplyInformation("R1", "parts"), NoSupplyInformation("C1", "parts")],
                       [Str("R1")], Pass, ["C1"])
  {
    var ws := [NoSupplyInformation("R1", "parts"), NoSupplyInformation("C1", "parts")];
    SupplierTableAccepted();
    PartsWarn();
    assert [] + ws == ws;
    KitUsesR1(ws);
    C1Unused();
  }
}
