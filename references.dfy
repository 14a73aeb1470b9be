/**
 * Component references, as `check_component_references` resolves them: a
 * bare id string or an `[amount, id]` pair naming a component of the table.
 * Every resolved id joins the usage set, and so does the replacement of an
 * obsolete component; an obsolete component without one may not be used.
 *
 * The functions here specify one resolution run on values: the usage list
 * and the warnings are threaded through, as the checker's instance state.
 */
module References {
  import opened Values
  import opened Diagnostics

  /** The state a resolution run reads and writes: the usage list (an array
      kept free of repeats), the warnings so far, and the verdict. */
  datatype Usage = Usage(used: seq<Value>, warnings: seq<Warning>, outcome: Outcome)

  /** `@components_used.push x unless @components_used.include? x` */
  function Insert(used: seq<Value>, x: Value): seq<Value> {
    if x in used then used else used + [x]
  }

  /** Insertion adds exactly `x` to the elements. */
  lemma InsertElems(used: seq<Value>, x: Value)
    ensures Elems(Insert(used, x)) == Elems(used) + {x}
  {
  }

  /** Insertion keeps the list free of repeats and leaves what was there
      in place. */
  lemma InsertGrows(used: seq<Value>, x: Value)
    ensures NoDuplicates(used) ==> NoDuplicates(Insert(used, x))
    ensures |used| <= |Insert(used, x)| && Insert(used, x)[..|used|] == used
  {
    if x !in used {
      assert (used + [x])[..|used|] == used;
    }
  }

  /** Inserting twice is inserting once. */
  lemma InsertIdempotent(used: seq<Value>, x: Value)
    ensures Insert(Insert(used, x), x) == Insert(used, x)
  {
    InsertElems(used, x);
    assert x in Elems(Insert(used, x));
  }

  /** A bare string `s` becomes the pair `[1, s]`; anything else is kept. */
  function Normalize(ref: Value): Value {
    if ref.Str? then List([Int(1), ref]) else ref
  }

  /** The shape test at the head of each iteration: the reference is a list
      or a string, and once normalised it has two elements. */
  function ShapeCheck(ref: Value, context: Value): (r: Outcome)
    ensures r.Pass? <==> ref.Str? || (ref.List? && |ref.items| == 2)
    ensures !ref.Str? && !ref.List? ==> r == Fail(ReferenceNotArrayOrString(context))
    ensures ref.List? && |ref.items| != 2 ==> r == Fail(ReferenceNotPair(context))
  {
    if ClassOf(ref) !in {ArrayClass, StringClass} then Fail(ReferenceNotArrayOrString(context))
    else if |Normalize(ref).items| != 2 then Fail(ReferenceNotPair(context))
    else Pass
  }

  /** The same test as written: both messages interpolate `component`, a
      name not yet bound in the block at that point, so Ruby raises a
      NameError while building the message instead of reporting the shape. */
  function ShapeCheckAsWritten(ref: Value, context: Value): (r: Outcome)
    ensures r.Pass? <==> ShapeCheck(ref, context).Pass?
    ensures r.Fail? ==> r.error == RuntimeFailure
  {
    if ClassOf(ref) !in {ArrayClass, StringClass} then Fail(RuntimeFailure)
    else if |Normalize(ref).items| != 2 then Fail(RuntimeFailure)
    else Pass
  }

  /** A number where a reference belongs aborts the run either way, but as
      written it never says why. */
  lemma ShapeMessageLost(context: Value)
    ensures ShapeCheckAsWritten(Int(3), context) == Fail(RuntimeFailure)
    ensures ShapeCheck(Int(3), context) == Fail(ReferenceNotArrayOrString(context))
    ensures ShapeCheckAsWritten(List([Int(2)]), context) == Fail(RuntimeFailure)
    ensures ShapeCheck(List([Int(2)]), context) == Fail(ReferenceNotPair(context))
  {
  }

  /** A reference the run accepts: a string or a pair whose amount is a
      Fixnum and whose id names a component; a named component that is
      obsolete must carry a replacement. */
  predicate RefAccepted(components: Value, ref: Value)
    requires components.Hash?
  {
    var pair := Normalize(ref);
    && pair.List?
    && |pair.items| == 2
    && IsFixnum(pair.items[0])
    && IsKeyOf(pair.items[1], components)
    && var c := Lookup(components, pair.items[1]);
       && c.Hash?
       && (Truthy(Get(c, "obsolete")) ==> HasKey(c, "replacement"))
  }

  /** What an accepted reference adds to the usage set: its component id,
      and the replacement of that component when it is obsolete. */
  function RefIds(components: Value, ref: Value): set<Value>
    requires components.Hash?
  {
    if !RefAccepted(components, ref) then {}
    else
      var id := Normalize(ref).items[1];
      var c := Lookup(components, id);
      if Truthy(Get(c, "obsolete")) then {id, Get(c, "replacement")} else {id}
  }

  /** The usage-set contribution of a whole list of references. */
  function RefsIds(components: Value, refs: seq<Value>): set<Value>
    requires components.Hash?
  {
    if refs == [] then {} else RefIds(components, refs[0]) + RefsIds(components, refs[1..])
  }

  /** One iteration of the loop in `check_component_references`. The id
      joins the usage list before the obsolete test, and the replacement of
      an obsolete component joins it too, with a warning. */
  function ResolveOne(components: Value, ref: Value, context: Value, used: seq<Value>, ws: seq<Warning>): Usage
    requires components.Hash?
  {
    var shape := ShapeCheck(ref, context);
    if shape.Fail? then Usage(used, ws, shape)
    else
      var pair := Normalize(ref).items;
      if ClassOf(pair[0]) != FixnumClass then Usage(used, ws, Fail(AmountNotFixnum(context)))
      else if ClassOf(pair[1]) != StringClass then Usage(used, ws, Fail(ComponentIdNotString(context)))
      else if pair[1].s !in components.fields then Usage(used, ws, Fail(UndefinedComponent(pair[1].s)))
      else
        var id := pair[1];
        var withId := Insert(used, id);
        var c := components.fields[id.s];
        if !c.Hash? then Usage(withId, ws, Fail(RuntimeFailure))
        else if !Truthy(Get(c, "obsolete")) then Usage(withId, ws, Pass)
        else if HasKey(c, "replacement") then
          Usage(Insert(withId, Get(c, "replacement")), ws + [ObsoleteComponentUsed(id.s, context)], Pass)
        else Usage(withId, ws, Fail(ObsoleteWithoutReplacement(id.s)))
  }

  /** One reference is resolved exactly when it is accepted. */
  lemma ResolveOneOutcome(components: Value, ref: Value, context: Value, used: seq<Value>, ws: seq<Warning>)
    requires components.Hash?
    ensures ResolveOne(components, ref, context, used, ws).outcome.Pass? <==> RefAccepted(components, ref)
  {
  }

  /** The usage list and the warnings only grow at their ends, and the
      usage list never gains a repeat. */
  lemma ResolveOneGrows(components: Value, ref: Value, context: Value, used: seq<Value>, ws: seq<Warning>)
    requires components.Hash?
    ensures var u := ResolveOne(components, ref, context, used, ws);
            && (NoDuplicates(used) ==> NoDuplicates(u.used))
            && |used| <= |u.used| && u.used[..|used|] == used
            && |ws| <= |u.warnings| && u.warnings[..|ws|] == ws
  {
    var u := ResolveOne(components, ref, context, used, ws);
    if ShapeCheck(ref, context).Pass? {
      var pair := Normalize(ref).items;
      if IsFixnum(pair[0]) && pair[1].Str? && pair[1].s in components.fields {
        var id := pair[1];
        var withId := Insert(used, id);
        InsertGrows(used, id);
        var c := components.fields[id.s];
        if c.Hash? && Truthy(Get(c, "obsolete")) && HasKey(c, "replacement") {
          var r := Get(c, "replacement");
          InsertGrows(withId, r);
          assert u.used == Insert(withId, r);
          assert u.used[..|used|] == u.used[..|withId|][..|used|];
          assert u.warnings[..|ws|] == ws;
        } else {
          assert u.used == withId && u.warnings == ws;
        }
      }
    }
  }

  /** An accepted reference adds exactly its contribution to the usage list. */
  lemma ResolveOneUsage(components: Value, ref: Value, context: Value, used: seq<Value>, ws: seq<Warning>)
    requires components.Hash?
    ensures var u := ResolveOne(components, ref, context, used, ws);
            u.outcome.Pass? ==> Elems(u.used) == Elems(used) + RefIds(components, ref)
  {
    var u := ResolveOne(components, ref, context, used, ws);
    if u.outcome.Pass? {
      var id := Normalize(ref).items[1];
      var withId := Insert(used, id);
      InsertElems(used, id);
      var c := components.fields[id.s];
      assert Lookup(components, id) == c;
      if Truthy(Get(c, "obsolete")) {
        InsertElems(withId, Get(c, "replacement"));
      }
    }
  }

  /** An obsolete component without a replacement cannot be referenced. */
  lemma ObsoleteNeedsReplacement(components: Value, amount: Value, id: string, context: Value, used: seq<Value>, ws: seq<Warning>)
    requires components.Hash? && IsFixnum(amount) && id in components.fields
    requires components.fields[id].Hash? && Truthy(Get(components.fields[id], "obsolete"))
    requires !HasKey(components.fields[id], "replacement")
    ensures ResolveOne(components, List([amount, Str(id)]), context, used, ws).outcome
            == Fail(ObsoleteWithoutReplacement(id))
  {
  }

  /** The loop of `check_component_references` over a list, stopping at the
      first error. */
  function ResolveRefs(components: Value, refs: seq<Value>, context: Value, used: seq<Value>, ws: seq<Warning>): Usage
    requires components.Hash?
  {
    if refs == [] then Usage(used, ws, Pass)
    else
      var first := ResolveOne(components, refs[0], context, used, ws);
      if first.outcome.Fail? then first
      else ResolveRefs(components, refs[1..], context, first.used, first.warnings)
  }

  /** The same loop, from position `i` of the list on. */
  function ResolveFrom(components: Value, refs: seq<Value>, i: nat, context: Value, used: seq<Value>, ws: seq<Warning>): Usage
    requires components.Hash? && i <= |refs|
    decreases |refs| - i
  {
    if i == |refs| then Usage(used, ws, Pass)
    else
      var first := ResolveOne(components, refs[i], context, used, ws);
      if first.outcome.Fail? then first
      else ResolveFrom(components, refs, i + 1, context, first.used, first.warnings)
  }

  /** Running from position `i` is running over the suffix from `i`. */
  lemma {:induction false} ResolveFromSuffix(components: Value, refs: seq<Value>, i: nat, context: Value, used: seq<Value>, ws: seq<Warning>)
    requires components.Hash? && i <= |refs|
    ensures ResolveFrom(components, refs, i, context, used, ws) == ResolveRefs(components, refs[i..], context, used, ws)
    decreases |refs| - i
  {
    if i < |refs| {
      var first := ResolveOne(components, refs[i], context, used, ws);
      assert refs[i..][0] == refs[i] && refs[i..][1..] == refs[i + 1..];
      if first.outcome.Pass? {
        ResolveFromSuffix(components, refs, i + 1, context, first.used, first.warnings);
      }
    }
  }

  /** What `Hash#each` hands a one-parameter block: a `[key, value]` pair
      per key, in key order. */
  function HashPairs(h: Value): seq<Value>
    requires h.Hash?
  {
    seq(|h.keys|, i requires 0 <= i < |h.keys| => List([Str(h.keys[i]), Get(h, h.keys[i])]))
  }

  /** A value `each` can walk: a list, or a hash. */
  predicate Iterable(refs: Value) {
    refs.List? || refs.Hash?
  }

  /** The elements `each` yields: a list's items, a hash's pairs. */
  function Iterated(refs: Value): seq<Value>
    requires Iterable(refs)
  {
    if refs.List? then refs.items else HashPairs(refs)
  }

  /** `check_component_references` on whatever value it is handed: a list
      or a hash is iterated, anything else has no `each` and Ruby raises. */
  function ResolveRefValue(components: Value, refs: Value, context: Value, used: seq<Value>, ws: seq<Warning>): Usage
    requires components.Hash?
  {
    if Iterable(refs) then ResolveRefs(components, Iterated(refs), context, used, ws)
    else Usage(used, ws, Fail(RuntimeFailure))
  }

  /** A hash where a component list belongs: an empty one yields nothing
      and passes; otherwise its first pair has a String key where the
      amount belongs, and the run stops there. */
  lemma HashListOutcome(components: Value, h: Value, context: Value, used: seq<Value>, ws: seq<Warning>)
    requires components.Hash? && h.Hash?
    ensures ResolveRefValue(components, h, context, used, ws)
            == if h.keys == [] then Usage(used, ws, Pass) else Usage(used, ws, Fail(AmountNotFixnum(context)))
  {
    var pairs := HashPairs(h);
    if h.keys != [] {
      assert pairs[0] == List([Str(h.keys[0]), Get(h, h.keys[0])]);
      assert ResolveOne(components, pairs[0], context, used, ws) == Usage(used, ws, Fail(AmountNotFixnum(context)));
    } else {
      assert pairs == [];
    }
  }

  /** A run over a list passes exactly when every reference is accepted,
      whatever the usage list and warnings it starts from. */
  lemma {:induction false} ResolveRefsOutcome(components: Value, refs: seq<Value>, context: Value, used: seq<Value>, ws: seq<Warning>)
    requires components.Hash?
    ensures ResolveRefs(components, refs, context, used, ws).outcome.Pass?
            <==> forall r :: r in refs ==> RefAccepted(components, r)
  {
    if refs != [] {
      var first := ResolveOne(components, refs[0], context, used, ws);
      ResolveOneOutcome(components, refs[0], context, used, ws);
      if first.outcome.Pass? {
        ResolveRefsOutcome(components, refs[1..], context, first.used, first.warnings);
        assert refs == [refs[0]] + refs[1..];
      }
    }
  }

  /** The usage list and the warnings only grow at their ends, and the
      usage list never holds an id twice. */
  lemma {:induction false} ResolveRefsGrows(components: Value, refs: seq<Value>, context: Value, used: seq<Value>, ws: seq<Warning>)
    requires components.Hash?
    ensures var u := ResolveRefs(components, refs, context, used, ws);
            && |used| <= |u.used| && u.used[..|used|] == used
            && |ws| <= |u.warnings| && u.warnings[..|ws|] == ws
            && (NoDuplicates(used) ==> NoDuplicates(u.used))
  {
    if refs != [] {
      var first := ResolveOne(components, refs[0], context, used, ws);
      ResolveOneGrows(components, refs[0], context, used, ws);
      if first.outcome.Pass? {
        ResolveRefsGrows(components, refs[1..], context, first.used, first.warnings);
        var u := ResolveRefs(components, refs[1..], context, first.used, first.warnings);
        assert ResolveRefs(components, refs, context, used, ws) == u;
        assert u.used[..|used|] == u.used[..|first.used|][..|used|];
        assert u.warnings[..|ws|] == u.warnings[..|first.warnings|][..|ws|];
      }
    }
  }

  /** After a run that passes, the usage list holds exactly what it held
      before plus the contribution of every reference. */
  lemma {:induction false} ResolveRefsUsage(components: Value, refs: seq<Value>, context: Value, used: seq<Value>, ws: seq<Warning>)
    requires components.Hash?
    ensures var u := ResolveRefs(components, refs, context, used, ws);
            u.outcome.Pass? ==> Elems(u.used) == Elems(used) + RefsIds(components, refs)
  {
    if refs != [] {
      var first := ResolveOne(components, refs[0], context, used, ws);
      ResolveOneUsage(components, refs[0], context, used, ws);
      if first.outcome.Pass? {
        ResolveRefsUsage(components, refs[1..], context, first.used, first.warnings);
        assert ResolveRefs(components, refs, context, used, ws)
               == ResolveRefs(components, refs[1..], context, first.used, first.warnings);
      }
    }
  }

  /** A bare string and the pair `[1, s]` are resolved identically. */
  lemma BareStringIsUnitPair(components: Value, s: string, context: Value, used: seq<Value>, ws: seq<Warning>)
    requires components.Hash?
    ensures ResolveOne(components, Str(s), context, used, ws)
            == ResolveOne(components, List([Int(1), Str(s)]), context, used, ws)
  {
  }

  /** A pair naming no component fails, whatever its amount. */
  lemma UnknownIdRejected(components: Value, amount: Value, id: string, context: Value, used: seq<Value>, ws: seq<Warning>)
    requires components.Hash? && id !in components.fields
    ensures ResolveOne(components, List([amount, Str(id)]), context, used, ws).outcome.Fail?
  {
  }
}
