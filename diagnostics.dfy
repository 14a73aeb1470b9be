/**
 * What a validation run reports. An `error` aborts the run, so a run ends
 * with at most one `Error`; a `warn` only adds a `Warning` and goes on.
 * Message texts are not modelled: each error and warning is identified by
 * its kind and the entity it names.
 */
module Diagnostics {
  import opened Values

  datatype Error =
      // supplier table
    | SupplierMissingKey(supplier: string, key: string)
    | InvalidCurrency(supplier: string)
      // component table
    | ComponentMissingKey(component: string, key: string)
    | MissingObsoleteReplacement(component: string)
    | InvalidSupplySpecification(component: string)
    | InvalidPart(component: string, supplier: string)
    | InvalidPrice(component: string, supplier: string)
    | InvalidDatasheetType(component: string)
    | InvalidDatasheetFormat(component: string)
    | MissingDatasheet(component: string)
    | MissingReplacement(component: string)
      // configuration
    | ConfigurationMissingKey(key: string)
    | SectionOrderNotArray
    | SectionsNotHash
    | UndefinedSections(names: seq<Value>)
    | UnorderedSections(keys: seq<string>)
      // component references (context: "Default" or the section's name)
    | ReferenceNotArrayOrString(context: Value)
    | ReferenceNotPair(context: Value)
    | AmountNotFixnum(context: Value)
    | ComponentIdNotString(context: Value)
    | UndefinedComponent(id: string)
    | ObsoleteWithoutReplacement(id: string)
      // configurable sections
    | SectionNotHash(section: Value)
    | SectionMissingKey(section: Value, key: string)
    | InvalidFieldType(section: Value, key: string)
    | MinBelowZero(section: Value)
    | MinAboveMax(section: Value)
    | ValueAboveMax(section: Value)
    | ValueBelowMin(section: Value)
    | SelfExclusion(section: Value)
    | UndefinedExclusion(section: Value, excluded: Value)
    | PresetMissingTitle(section: Value)
    | PresetTitleNotString(section: Value)
    | PresetMissingValue(section: Value)
    | PresetValueNotFixnum(section: Value)
    | PresetAboveMax(section: Value)
    | PresetBelowMin(section: Value)
      // Ruby raises instead of reporting (a method called on the wrong type)
    | RuntimeFailure

  datatype Warning =
    | ObsoleteNoReplacement(component: string)
    | NoSupplyInformation(component: string, supplier: string)
    | SectionWithoutComponents(section: Value)
    | ObsoleteComponentUsed(component: string, context: Value)

  datatype Outcome = Pass | Fail(error: Error)

  /** A pass that may warn: the warnings it issued, in order, and its verdict. */
  datatype Checked = Checked(warnings: seq<Warning>, outcome: Outcome)
}
