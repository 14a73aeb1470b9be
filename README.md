# FreeBOMBS database sanity checker, modelled in Dafny

FreeBOMBS keeps its parts database as YAML records. The records are a
supplier table, a component table and a configuration made of ordered,
configurable sections. Before a database is published, the `CheckDBSanity`
class (`test/check_db_sanity.rb`) makes four fail-fast passes over the
parsed tables:

1. Suppliers: every supplier has a title, a homepage and a currency, and
   the currency is USD or EUR.
2. Components:
   - every component has a title;
   - an obsolete component is judged only by its replacement;
   - any other component needs a supply table whose entries for the known
     suppliers carry a String part number and a Fixnum or Float price;
   - it also needs a datasheet URL or a description;
   - a replacement, if named, must be a component.
3. Configuration:
   - the mandatory keys are present;
   - `section_order` and the keys of `sections` name the same sections;
   - the default component references are resolved;
   - then every section is checked in order: its type table, `0 <= min <= value <= max`, its exclusions, its presets, and its component references.

   Resolving a reference adds its id to the usage list `@components_used`,
   and also the replacement of an obsolete component.
4. Unused components: the component ids that never entered the usage list.

The first `error` ends the run, and a `warn` only reports.

## How the model is organised

- `values.dfy` holds the parsed YAML values. The checker targets 64-bit
  Ruby 1.9. A hash keeps its keys in insertion order, which is the order
  `each_key` visits them. It also
  models the Ruby behaviours the checks depend on:
  - `.class`: Fixnum is the 62-bit range of 64-bit Ruby 1.9, and Bignum lies beyond it;
  - truthiness;
  - `hash[key]`, which gives nil for a missing key.
- `diagnostics.dfy` holds one `Error` constructor per `error` call and one
  `Warning` per `warn` call. Each is identified by its kind and the entity
  it names, not by message text. A Ruby exception raised on a value of the
  wrong type becomes `RuntimeFailure`: the run aborts either way.
- `suppliers.dfy`, `components.dfy` and `sections.dfy` hold the rule loops
  that only decide and warn. They are functions, each proved against a
  declarative predicate (`SupplierOk`, `ComponentOk`, `SectionShapeOk`),
  and also for which error is reported first.
- `keydiff.dfy` holds `missing_keys` and `extra_keys`. Both are methods
  with loops, proved against the filters they compute.
- `references.dfy` and `configurations.dfy` specify the resolution runs on
  values. The usage list and the warnings are threaded through them.
  `RefAccepted`, `ConfigOk` and `ConfigIds` state, without the walk, when a
  run passes and which ids it leaves in use.
- `validator.dfy` holds the class `CheckDbSanity`. Its fields are the three
  tables, the usage list `componentsUsed` and the warnings issued so far.
  The reference, section and configuration passes, the unused report and
  `test` are methods over that state. Each is proved to compute what the
  specification functions say. The lemmas `ValidateOutcome`,
  `ValidateReport` and `UsedAreComponents` then state what a whole run
  decides and reports.
- `scenarios.dfy` holds small concrete databases that show single behaviours.

A component that is not obsolete and has no `suppliers` entry is refused
with an invalid supply specification, because `nil.class != Hash` at
line 92 (`Scenarios.MissingSupplyTableRefused`). An empty `suppliers: {}` passes,
with one supply-gap warning per known supplier
(`Scenarios.EmptySupplyTableWarns`).

## Model

| member | source | states |
|---|---|---|
| Values.FirstMissing | test/check_db_sanity.rb:44-46 | the `mandatory_keys.each` loops report the first key that is missing, in list order; none is reported exactly when all keys are present |
| Suppliers.CheckSupplier | test/check_db_sanity.rb:43-49 | a supplier passes iff it has title, homepage and currency and the currency is exactly "USD" or "EUR"; the first missing key in the order title, homepage, currency is reported before the currency is looked at; a non-hash record raises |
| Suppliers.CheckSupplierList | test/check_db_sanity.rb:41-50 | the supplier loop passes iff every listed supplier is acceptable, and otherwise reports the verdict of the first unacceptable one |
| Suppliers.CheckSuppliers | test/check_db_sanity.rb:39-51 | `check_suppliers` passes iff every supplier of the table is acceptable, and otherwise reports the first offender in table order |
| Components.UrlRestLength | test/check_db_sanity.rb:35-37 | `valid_url?` accepts "http://" followed by at least 4 characters and "https://" followed by at least 3 |
| Components.ValidUrlIsHttp | test/check_db_sanity.rb:35-37 | every accepted URL is longer than 10 characters and starts with "http" |
| Components.ValidateSupply | test/check_db_sanity.rb:53-61 | a supply spec passes iff it is a hash with a String part and a Fixnum or Float price; the part is checked before the price; a String spec is indexed as a string and always fails; any other non-hash raises |
| Components.SupplyGaps | test/check_db_sanity.rb:96-102 | every warning is a supply gap of this component for a known supplier that the supply table lacks, and every such supplier is warned about |
| Components.SupplyGapsAppend | test/check_db_sanity.rb:95-101 | the warnings of a supplier list are those of its parts in order, and one supplier gives one warning exactly when the table lacks it: one warning per missing supplier, in supplier-table order |
| Components.SupplyGapsDistinct | test/check_db_sanity.rb:95-101 | with distinct supplier names no gap is warned about twice |
| Components.CheckSupplies | test/check_db_sanity.rb:96-102 | the supplier loop passes iff every entry present for a known supplier is a valid supply spec; on success its warnings are exactly the supply gaps |
| Components.CheckDocumentation | test/check_db_sanity.rb:103-111 | passes iff the datasheet, when present, is a String URL accepted by `valid_url?`, or else a description is present; reports datasheet type before format, and a missing datasheet only when there is no description |
| Components.CheckComponent | test/check_db_sanity.rb:74-118 | passes iff the component is acceptable (`ComponentOk`); a missing title is reported first; an obsolete component warns exactly when it has no replacement; a current component whose `suppliers` is not a hash (also when absent) is refused; on success a current component's warnings are its supply gaps |
| Components.CheckComponentList | test/check_db_sanity.rb:73-119 | the component loop passes iff every listed component is acceptable, and then its warnings are, in order, each component's: the missing replacement of an obsolete one, the supply gaps of a current one |
| Components.CheckComponents | test/check_db_sanity.rb:63-120 | `check_components` passes iff every component of the table is acceptable, and then warns as above in table order |
| Components.ObsoleteSkipsOtherChecks | test/check_db_sanity.rb:78-89 | two obsolete records that agree on title and replacement get the same verdict and warnings, whatever their supply tables, datasheets or descriptions |
| KeyDiff.NotKeysOfMembers | test/check_db_sanity.rb:122-126 | an entry is in the `missing_keys` filter iff it is in the list and not a key of the hash |
| KeyDiff.KeysNotInMembers | test/check_db_sanity.rb:128-132 | a key is in the `extra_keys` filter iff it is a key of the hash and not in the list |
| KeyDiff.MissingKeys | test/check_db_sanity.rb:122-126 | returns exactly the entries of `keys` that the hash lacks, in order |
| KeyDiff.ExtraKeys | test/check_db_sanity.rb:128-132 | returns exactly the hash's keys, in hash order, that `keys` does not list |
| KeyDiff.SectionOrderMatches | test/check_db_sanity.rb:263-270 | both differences are empty iff every `section_order` entry is a section and every section is listed in `section_order` |
| References.InsertElems | test/check_db_sanity.rb:156 | the guarded push adds exactly the pushed id to the usage set |
| References.InsertGrows | test/check_db_sanity.rb:156 | the guarded push never creates a repeat and keeps what the list held, in place |
| References.InsertIdempotent | test/check_db_sanity.rb:156 | pushing the same id twice is pushing it once |
| References.ShapeCheck | test/check_db_sanity.rb:136-144 | a reference passes the shape test iff it is a String or a two-element list; otherwise it is refused as not a list or string, or as not a pair |
| References.ShapeCheckAsWritten | test/check_db_sanity.rb:136-144 | as written the shape test passes on the same references, but every refusal is a Ruby NameError |
| References.ShapeMessageLost | test/check_db_sanity.rb:137-143 | for a number and for a one-element list, the code as written raises, while the evidently intended check reports the shape error |
| References.ResolveOneOutcome | test/check_db_sanity.rb:135-167 | one reference is resolved iff it is a String or pair, with a Fixnum amount and an id naming a component that, if obsolete, has a replacement |
| References.ResolveOneGrows | test/check_db_sanity.rb:156-162 | resolving one reference only appends to the usage list and the warnings, and never creates a repeat |
| References.ResolveOneUsage | test/check_db_sanity.rb:156-162 | a resolved reference adds exactly its id, plus the replacement when the component is obsolete |
| References.ObsoleteNeedsReplacement | test/check_db_sanity.rb:158-165 | referencing an obsolete component without a replacement is an error |
| References.BareStringIsUnitPair | test/check_db_sanity.rb:139-141 | a bare id string is resolved exactly as the pair `[1, id]` |
| References.UnknownIdRejected | test/check_db_sanity.rb:153-155 | a pair naming no component is refused, whatever its amount |
| References.HashListOutcome | test/check_db_sanity.rb:134-146 | a hash given as a component list is walked pair by pair: an empty one passes and changes nothing, a non-empty one stops at its first pair, whose String key stands where the Fixnum amount belongs |
| References.ResolveFromSuffix | test/check_db_sanity.rb:135-167 | running the loop from position i is running it over the suffix from i |
| References.ResolveRefsOutcome | test/check_db_sanity.rb:134-168 | a reference list passes iff every reference in it is accepted |
| References.ResolveRefsGrows | test/check_db_sanity.rb:156-162 | a run over a list only appends to the usage list and warnings and keeps the usage list free of repeats |
| References.ResolveRefsUsage | test/check_db_sanity.rb:134-168 | after a list passes, the usage set is what it was plus every reference's ids |
| Sections.FirstBadType | test/check_db_sanity.rb:188-205 | the type-table loop reports the first entry, in table order, whose key is present with a class outside the allowed ones |
| Sections.TypeTableAgrees | test/check_db_sanity.rb:188-205 | the type-table loop finds no offender iff the section is well typed key by key |
| Sections.CheckRange | test/check_db_sanity.rb:206-217 | passes iff `0 <= min <= value <= max`; a negative min is reported first; min above max is reported whatever the value; a value outside a valid range is reported as above or below |
| Sections.CheckExcludes | test/check_db_sanity.rb:218-229 | passes iff every excluded name differs from the section and names a section; a self-exclusion among defined sections is reported as such |
| Sections.CheckPreset | test/check_db_sanity.rb:231-241 | a preset passes iff it has a String title and a Fixnum value within the section's `[min, max]` |
| Sections.CheckPresets | test/check_db_sanity.rb:230-243 | the preset loop passes iff every preset does |
| Sections.CheckFields | test/check_db_sanity.rb:188-243 | the checks after the mandatory keys pass iff the section is well typed, in range, and has valid exclusions and presets; min above max is reported before the value is compared |
| Sections.CheckSection | test/check_db_sanity.rb:170-243 | a section passes iff it is acceptable (`SectionShapeOk`); a non-hash is reported as such; the only warning is a missing components list; once the mandatory keys are present the verdict is that of the field checks |
| Configurations.CheckConfigShape | test/check_db_sanity.rb:249-270 | the checks before the usage list is emptied pass iff the configuration has its mandatory keys, a `section_order` list and a `sections` hash that name the same sections |
| Configurations.SectionRunFacts | test/check_db_sanity.rb:170-247 | a section run passes iff the section is acceptable with accepted references; it keeps the usage list free of repeats and adds exactly the section's ids |
| Configurations.SectionsRunFacts | test/check_db_sanity.rb:273-275 | the section loop passes iff every listed section does, and then adds exactly the sections' ids to the usage set |
| Configurations.ConfigRunFacts | test/check_db_sanity.rb:249-276 | `check_configurations` passes iff the configuration is acceptable (`ConfigOk`); the usage list it leaves has no repeats and holds exactly the configuration's usage set, whatever the list held before |
| Validator.CheckDbSanity.CheckComponentReference | test/check_db_sanity.rb:135-167 | one iteration updates the usage list and warnings and reports exactly as the specification of one reference says |
| Validator.CheckDbSanity.CheckReferenceList | test/check_db_sanity.rb:135-167 | the loop over a reference list leaves the state and verdict of the specified run over that list |
| Validator.CheckDbSanity.CheckComponentReferences | test/check_db_sanity.rb:134-168 | `check_component_references` leaves the specified state and verdict: a list is walked by element, a hash by `[key, value]` pair, and any other value raises |
| Validator.CheckDbSanity.CheckConfigSection | test/check_db_sanity.rb:170-247 | `check_config_section` leaves the state and verdict of the specified section run |
| Validator.CheckDbSanity.CheckConfigurations | test/check_db_sanity.rb:249-276 | `check_configurations` leaves the state and verdict of the specified configuration run; the usage list is emptied only once the section lists agree |
| Validator.CheckDbSanity.CheckUnusedComponents | test/check_db_sanity.rb:278-289 | lists exactly the component ids, in table order, that the usage list does not hold |
| Validator.CheckDbSanity.Test | test/check_db_sanity.rb:291-297 | `test` leaves the warnings, usage list, verdict and unused report of the specified whole run |
| Validator.ValidateOutcome | test/check_db_sanity.rb:291-297 | a run passes iff the database is acceptable table by table (`DatabaseOk`), and lists unused components only when it passes |
| Validator.ValidateReport | test/check_db_sanity.rb:271-289 | after a passing run, the usage list has no repeats and holds exactly the configuration's usage set, and the report lists exactly the component ids outside it |
| Validator.RefsIdsAreComponents | test/check_db_sanity.rb:153-162 | when every component passes the component checks, so that replacements name components, every id a reference list contributes (the id and any replacement) names a component |
| Validator.SectionsIdsAreComponents | test/check_db_sanity.rb:244-246 | the same for the component lists of the sections |
| Validator.UsedAreComponents | test/check_db_sanity.rb:271-289 | after a passing run the usage list names components only, so every component id is either used or reported unused |
| Scenarios.MissingSupplyTableRefused | test/check_db_sanity.rb:91-94 | a current component without `suppliers` is refused with an invalid supply specification |
| Scenarios.EmptySupplyTableWarns | test/check_db_sanity.rb:96-102 | a current component with an empty supply table passes, with one warning for the one known supplier |
| Scenarios.FtpDatasheetRefused | test/check_db_sanity.rb:103-108 | an ftp datasheet address is refused as an invalid format |
| Scenarios.MinAboveMaxReportedFirst | test/check_db_sanity.rb:206-211 | with min 5, max 3 and value 4 the section is refused for min above max, with the missing-components warning |
| Scenarios.EmptyHashDefaultListAccepted | test/check_db_sanity.rb:271-275 | a configuration whose default component list is an empty hash passes with no component used |
| Scenarios.UnusedComponentReported | test/check_db_sanity.rb:278-297 | a database whose default list uses one of two parts passes, warns about both supply gaps, and reports the other part unused |

## Left out

- Message text, the `log`/`info`/`warn`/`error` printing, the `$verbose`
  flag and the process `exit`: errors and warnings are values, and `exit`
  is the end of the run.
- The command-line and directory driver (`usage`, `test_db`,
  `test_all_dbs`, the `ARGV` dispatch): file-system and process I/O.
- The YAML loading layer `FreeBOMBS::DBHandler`, which provides
  `suppliers`, `components` and `configurations`: these tables are the
  model's inputs. `lib/freebombs/db_handler.rb` is not part of this model.
- Floating-point values: a Float is a class tag only, since the checks
  never compute with prices.
- Hash keys other than strings: a parsed hash is keyed by strings, and a
  lookup with any other value finds nothing.
- Ruby versions other than 1.9: in 1.8 hashes are unordered and a String
  has `each`, and from 2.4 Fixnum and Bignum are aliases of Integer. The
  model follows 64-bit Ruby 1.9, with its split at 62 bits.
- References.ResolveOne: uses the corrected shape test (`ShapeCheck`), so a
  reference that is neither a list nor a string, or a list that is not a
  pair, is reported as that shape error. The code as written raises a
  NameError there instead; see Findings.
- References.ResolveOne: a component that is not a hash is modelled as a
  Ruby exception. That state is unreachable from `test`, which has refused
  such a table already, but `component['obsolete']` would index a String
  record as a string.
- Validator.CheckDbSanity.CheckComponentReference: reports the intended
  shape errors where the code as written raises, as `ResolveOne` does.
  The same holds for the runs built on it: `CheckComponentReferences`,
  `CheckConfigSection`, `CheckConfigurations` and `Test`.

## Findings

| source | as written | input that shows it | evidently intended | confidence | as-written member | corrected member |
|---|---|---|---|---|---|---|
| test/check_db_sanity.rb:137-143 | the messages for a reference that is neither a list nor a string, and for a list that is not a pair, interpolate `component`, which is not yet defined in that block, so Ruby raises a NameError instead of reporting the error | a default component list `[3]`, or `[[2]]` | report the offending reference's class or value: an error naming the bad shape in its context | not executed | References.ShapeCheckAsWritten, References.ShapeMessageLost | References.ShapeCheck |
