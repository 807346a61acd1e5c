/** Reference resolution over the two string-keyed tables of a script run: the
    variable table (`VARS`) and the deployed-address table (`CONTRACT_ADDRESS`).

    The source follows variable chains with no cycle guard. The model asks instead
    that chains be finite: a ghost `rank` on the variable keys such that every key a
    variable's value mentions (at any array depth) has a smaller rank than the
    variable itself. Nothing else is demanded and no error is added. */
module Resolution {
  import opened JsValues

  type VarTable = map<string, Value>
  type AddressTable = map<string, string>
  type Ranks = map<string, nat>

  /** Every variable key that `v` or one of its elements (at any depth) names has a
      rank below `r`. */
  ghost predicate Below(vars: VarTable, rank: Ranks, v: Value, r: nat)
    decreases v
  {
    && (JsString(v) in vars ==> JsString(v) in rank && rank[JsString(v)] < r)
    && (v.Arr? ==> forall i :: 0 <= i < |v.items| ==> Below(vars, rank, v.items[i], r))
  }

  /** Variable chains are finite: each variable's value stays below its own rank. */
  ghost predicate Ranked(vars: VarTable, rank: Ranks) {
    forall k :: k in vars ==> k in rank && Below(vars, rank, vars[k], rank[k])
  }

  ghost predicate Bounded(rank: Ranks, bound: nat) {
    forall k :: k in rank ==> rank[k] < bound
  }

  /** `resolveVar(v)`: at every hop the address table is consulted before the
      variable table; a value found in neither is a literal, and an array literal is
      resolved element by element. */
  function Resolved(vars: VarTable, addrs: AddressTable, ghost rank: Ranks, v: Value, ghost r: nat): Value
    requires Ranked(vars, rank) && Below(vars, rank, v, r)
    decreases r, v
  {
    var k := JsString(v);
    if k in addrs then Str(addrs[k])
    else if k in vars then Resolved(vars, addrs, rank, vars[k], rank[k])
    else match v
      case Arr(items) =>
        Arr(seq(|items|, i requires 0 <= i < |items| => Resolved(vars, addrs, rank, items[i], r)))
      case _ => v
  }

  /** `resolveName(v)`: the same walk through the variable table alone. */
  function ResolvedName(vars: VarTable, ghost rank: Ranks, v: Value, ghost r: nat): Value
    requires Ranked(vars, rank) && Below(vars, rank, v, r)
    decreases r, v
  {
    var k := JsString(v);
    if k in vars then ResolvedName(vars, rank, vars[k], rank[k])
    else match v
      case Arr(items) =>
        Arr(seq(|items|, i requires 0 <= i < |items| => ResolvedName(vars, rank, items[i], r)))
      case _ => v
  }

  /** With every rank below `bound`, any value at all may be resolved within `bound`. */
  lemma {:induction false} BelowBound(vars: VarTable, rank: Ranks, bound: nat, v: Value)
    requires Ranked(vars, rank) && Bounded(rank, bound)
    ensures Below(vars, rank, v, bound)
    decreases v
  {
    if v.Arr? {
      forall i | 0 <= i < |v.items| ensures Below(vars, rank, v.items[i], bound) {
        BelowBound(vars, rank, bound, v.items[i]);
      }
    }
  }

  /** A value is inert when neither it nor any of its elements names a key of either table. */
  ghost predicate Inert(vars: VarTable, addrs: AddressTable, v: Value)
    decreases v
  {
    && JsString(v) !in vars && JsString(v) !in addrs
    && (v.Arr? ==> forall i :: 0 <= i < |v.items| ==> Inert(vars, addrs, v.items[i]))
  }

  /** Resolving an inert value gives it back unchanged: a literal stays a literal. */
  lemma {:induction false} ResolveInert(vars: VarTable, addrs: AddressTable, rank: Ranks, v: Value, r: nat)
    requires Ranked(vars, rank) && Below(vars, rank, v, r)
    requires Inert(vars, addrs, v)
    ensures Resolved(vars, addrs, rank, v, r) == v
    decreases v
  {
    if v.Arr? {
      var items := v.items;
      forall i | 0 <= i < |items| ensures Resolved(vars, addrs, rank, items[i], r) == items[i] {
        ResolveInert(vars, addrs, rank, items[i], r);
      }
      assert Resolved(vars, addrs, rank, v, r).items == items;
    }
  }

  /** A resolved value that is not an array is either an entry of the address table or
      a literal that names no key of either table. */
  lemma {:induction false} ResolvedScalarIsTerminal(vars: VarTable, addrs: AddressTable, rank: Ranks, v: Value, r: nat)
    requires Ranked(vars, rank) && Below(vars, rank, v, r)
    ensures var res := Resolved(vars, addrs, rank, v, r);
            !res.Arr? ==>
              (res.Str? && res.s in addrs.Values) || (JsString(res) !in vars && JsString(res) !in addrs)
    decreases r, v
  {
    var k := JsString(v);
    if k in addrs {
      assert addrs[k] in addrs.Values;
    } else if k in vars {
      ResolvedScalarIsTerminal(vars, addrs, rank, vars[k], rank[k]);
    }
  }

  /** Re-resolving a terminal result that is not an address is the identity. */
  lemma ReResolveTerminal(vars: VarTable, addrs: AddressTable, rank: Ranks, v: Value, r: nat)
    requires Ranked(vars, rank) && Below(vars, rank, v, r)
    requires var res := Resolved(vars, addrs, rank, v, r);
             !res.Arr? && !(res.Str? && res.s in addrs.Values)
    ensures var res := Resolved(vars, addrs, rank, v, r);
            Below(vars, rank, res, r) && Resolved(vars, addrs, rank, res, r) == res
  {
    ResolvedScalarIsTerminal(vars, addrs, rank, v, r);
  }

  /** With an empty address table the two walks coincide: `resolveVar` differs from
      `resolveName` only where it stops at a deployed address. */
  lemma {:induction false} NameIsVarWithoutAddresses(vars: VarTable, rank: Ranks, v: Value, r: nat)
    requires Ranked(vars, rank) && Below(vars, rank, v, r)
    ensures Resolved(vars, map[], rank, v, r) == ResolvedName(vars, rank, v, r)
    decreases r, v
  {
    var k := JsString(v);
    if k in vars {
      NameIsVarWithoutAddresses(vars, rank, vars[k], rank[k]);
    } else if v.Arr? {
      var items := v.items;
      forall i | 0 <= i < |items|
        ensures Resolved(vars, map[], rank, items[i], r) == ResolvedName(vars, rank, items[i], r)
      {
        NameIsVarWithoutAddresses(vars, rank, items[i], r);
      }
      assert Resolved(vars, map[], rank, v, r).items == ResolvedName(vars, rank, v, r).items;
    }
  }

  /** A name that resolves to a scalar has left the variable table. */
  lemma {:induction false} ResolvedNameUnbound(vars: VarTable, rank: Ranks, v: Value, r: nat)
    requires Ranked(vars, rank) && Below(vars, rank, v, r)
    ensures var res := ResolvedName(vars, rank, v, r);
            !res.Arr? ==> JsString(res) !in vars
    decreases r, v
  {
    var k := JsString(v);
    if k in vars {
      ResolvedNameUnbound(vars, rank, vars[k], rank[k]);
    }
  }

  /** The two tables as one script run holds them, with the ghost ranks that make
      every chain finite. */
  datatype Tables = Tables(vars: VarTable, addrs: AddressTable, ghost rank: Ranks, ghost bound: nat) {
    ghost predicate Valid() {
      Ranked(vars, rank) && Bounded(rank, bound)
    }
  }

  /** `resolveVar(v)` against the run's tables. */
  function ResolveValue(t: Tables, v: Value): Value
    requires t.Valid()
  {
    BelowBound(t.vars, t.rank, t.bound, v);
    Resolved(t.vars, t.addrs, t.rank, v, t.bound)
  }

  /** `resolveName(v)` against the run's tables. */
  function ResolveNameValue(t: Tables, v: Value): Value
    requires t.Valid()
  {
    BelowBound(t.vars, t.rank, t.bound, v);
    ResolvedName(t.vars, t.rank, v, t.bound)
  }
}
