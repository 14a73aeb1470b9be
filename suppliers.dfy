/**
 * Pass 1, `check_suppliers`: every supplier record carries a title, a
 * homepage and a currency, and the currency is one the tool prices in.
 */
module Suppliers {
  import opened Values
  import opened Diagnostics

  const MandatoryKeys: seq<string> := ["title", "homepage", "currency"]
  const Currencies: seq<Value> := [Str("USD"), Str("EUR")]

  /** A supplier record the pass accepts, stated field by field. */
  predicate SupplierOk(supplier: Value) {
    && supplier.Hash?
    && HasKey(supplier, "title")
    && HasKey(supplier, "homepage")
    && HasKey(supplier, "currency")
    && (Get(supplier, "currency") == Str("USD") || Get(supplier, "currency") == Str("EUR"))
  }

  /** One supplier. The mandatory keys are checked in the order title,
      homepage, currency and the first one missing is reported; only then
      is the currency looked at. A record that is not a hash makes Ruby
      raise on `has_key?`. */
  function CheckSupplier(name: string, supplier: Value): (r: Outcome)
    ensures r.Pass? <==> SupplierOk(supplier)
    ensures !supplier.Hash? ==> r == Fail(RuntimeFailure)
    ensures supplier.Hash? && !HasKey(supplier, "title") ==>
              r == Fail(SupplierMissingKey(name, "title"))
    ensures supplier.Hash? && HasKey(supplier, "title") && !HasKey(supplier, "homepage") ==>
              r == Fail(SupplierMissingKey(name, "homepage"))
    ensures (&& supplier.Hash? && HasKey(supplier, "title") && HasKey(supplier, "homepage")
             && !HasKey(supplier, "currency")) ==>
              r == Fail(SupplierMissingKey(name, "currency"))
    ensures (&& supplier.Hash? && HasKey(supplier, "title") && HasKey(supplier, "homepage")
             && HasKey(supplier, "currency") && !SupplierOk(supplier)) ==>
              r == Fail(InvalidCurrency(name))
  {
    if !supplier.Hash? then Fail(RuntimeFailure)
    else
      var k := FirstMissing(MandatoryKeys, supplier);
      assert MandatoryKeys[0] == "title" && MandatoryKeys[1] == "homepage" && MandatoryKeys[2] == "currency";
      if k < |MandatoryKeys| then Fail(SupplierMissingKey(name, MandatoryKeys[k]))
      else if Get(supplier, "currency") !in Currencies then Fail(InvalidCurrency(name))
      else Pass
  }

  /** Position of the first supplier of `names` that is not acceptable, or
      |names| when all are. */
  function FirstBadSupplier(suppliers: Value, names: seq<string>): (i: nat)
    requires suppliers.Hash?
    ensures i <= |names|
    ensures forall j :: 0 <= j < i ==> SupplierOk(Get(suppliers, names[j]))
    ensures i < |names| ==> !SupplierOk(Get(suppliers, names[i]))
  {
    if names == [] then 0
    else if !SupplierOk(Get(suppliers, names[0])) then 0
    else 1 + FirstBadSupplier(suppliers, names[1..])
  }

  /** The suppliers named by `names`, in order, stopping at the first error:
      the verdict is the one for the first unacceptable supplier. */
  function CheckSupplierList(suppliers: Value, names: seq<string>): (r: Outcome)
    requires suppliers.Hash?
    ensures r.Pass? <==> forall n :: n in names ==> SupplierOk(Get(suppliers, n))
    ensures var i := FirstBadSupplier(suppliers, names);
            r == if i < |names| then CheckSupplier(names[i], Get(suppliers, names[i])) else Pass
  {
    if names == [] then Pass
    else
      var first := CheckSupplier(names[0], Get(suppliers, names[0]));
      if first.Fail? then first
      else CheckSupplierList(suppliers, names[1..])
  }

  /** `check_suppliers`: every supplier of the table, in table order. */
  function CheckSuppliers(suppliers: Value): (r: Outcome)
    requires suppliers.Hash?
    ensures r.Pass? <==> forall n :: n in suppliers.keys ==> SupplierOk(Get(suppliers, n))
    ensures var i := FirstBadSupplier(suppliers, suppliers.keys);
            r == if i < |suppliers.keys| then CheckSupplier(suppliers.keys[i], Get(suppliers, suppliers.keys[i])) else Pass
  {
    CheckSupplierList(suppliers, suppliers.keys)
  }
}
