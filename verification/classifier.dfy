/**
 * The row classifier of the request handler: a flat list of untyped rows is
 * distributed into nine named tables by an ordered, first-match list of
 * field-presence rules. A row that no rule matches is dropped; a row whose
 * provider test reads `name.includes("BANK")` on a value without `includes`
 * throws, and the exception aborts the whole classification.
 */
module Classifier {
  import opened Wrappers
  import opened Values

  /** The nine tables, each always present in the output. */
  datatype Table =
    | Models | Variants | Colors | Components | Pricing
    | InsuranceProviders | InsurancePlans | FinanceProviders | FinanceOptions

  /** The key under which a table appears in the output record. */
  function TableName(t: Table): string {
    match t
    case Models => "models"
    case Variants => "variants"
    case Colors => "colors"
    case Components => "components"
    case Pricing => "pricing"
    case InsuranceProviders => "insurance_providers"
    case InsurancePlans => "insurance_plans"
    case FinanceProviders => "finance_providers"
    case FinanceOptions => "finance_options"
  }

  const AllTables: set<Table> :=
    {Models, Variants, Colors, Components, Pricing,
     InsuranceProviders, InsurancePlans, FinanceProviders, FinanceOptions}

  type Tables = map<Table, seq<Row>>

  /** Distinct tables have distinct keys, and the keys are exactly the nine of the output record. */
  lemma TableNamesAreTheKeys()
    ensures forall t, u :: TableName(t) == TableName(u) ==> t == u
    ensures (set t | t in AllTables :: TableName(t)) ==
              {"models", "variants", "colors", "components", "pricing",
               "insurance_providers", "insurance_plans", "finance_providers", "finance_options"}
    ensures forall t: Table :: t in AllTables
  {
    forall t: Table
      ensures t in AllTables
    {
      match t
      case Models => case Variants => case Colors => case Components => case Pricing =>
      case InsuranceProviders => case InsurancePlans => case FinanceProviders => case FinanceOptions =>
    }
  }

  /** The eight classification rules; `Provider` covers both provider tables. */
  datatype Rule = Model | Variant | Color | Component | PricingRange | Provider | Plan | FinanceOption

  /** The field-presence test of each rule, on its own, ignoring precedence. */
  predicate Matches(rule: Rule, row: Row) {
    match rule
    case Model => Truthy(row, "model_code") && !Truthy(row, "model_id")
    case Variant => Truthy(row, "battery_capacity") && Truthy(row, "range_km")
    case Color => Truthy(row, "color_value")
    case Component => Truthy(row, "component_type")
    case PricingRange => Truthy(row, "pincode_start") && Truthy(row, "pincode_end")
    case Provider =>
      Truthy(row, "logo_url") && !Truthy(row, "provider_id")
      && !Truthy(row, "plan_type") && !Truthy(row, "interest_rate")
    case Plan => Truthy(row, "plan_type")
    case FinanceOption => Truthy(row, "interest_rate")
  }

  /** The order in which the rules are tried; the first that matches decides. */
  const Precedence: seq<Rule> := [Model, Variant, Color, Component, PricingRange, Provider, Plan, FinanceOption]

  /** What happens to one row: it is appended to a table, dropped, or it throws. */
  datatype Fate = Into(table: Table) | Dropped | Throws

  /** The fate of a row once `rule` has been selected for it. */
  function Settle(rule: Rule, row: Row): Fate {
    match rule
    case Model => Into(Models)
    case Variant => Into(Variants)
    case Color => Into(Colors)
    case Component => Into(Components)
    case PricingRange => Into(Pricing)
    case Provider =>
      (match NameIncludes(row, "BANK")
       case Some(true) => Into(FinanceProviders)
       case Some(false) => Into(InsuranceProviders)
       case None => Throws)
    case Plan => Into(InsurancePlans)
    case FinanceOption => Into(FinanceOptions)
  }

  /** The if/else-if chain of the classifier, branch for branch. */
  function Route(row: Row): Fate {
    if Truthy(row, "model_code") && !Truthy(row, "model_id") then Into(Models)
    else if Truthy(row, "battery_capacity") && Truthy(row, "range_km") then Into(Variants)
    else if Truthy(row, "color_value") then Into(Colors)
    else if Truthy(row, "component_type") then Into(Components)
    else if Truthy(row, "pincode_start") && Truthy(row, "pincode_end") then Into(Pricing)
    else if Truthy(row, "logo_url") && !Truthy(row, "provider_id") && !Truthy(row, "plan_type") && !Truthy(row, "interest_rate") then
      match NameIncludes(row, "BANK")
      case Some(true) => Into(FinanceProviders)
      case Some(false) => Into(InsuranceProviders)
      case None => Throws
    else if Truthy(row, "plan_type") then Into(InsurancePlans)
    else if Truthy(row, "interest_rate") then Into(FinanceOptions)
    else Dropped
  }

  /** Rule `rules[k]` is the first of `rules` that matches `row`. */
  predicate FirstMatching(rules: seq<Rule>, k: int, row: Row) {
    && 0 <= k < |rules|
    && Matches(rules[k], row)
    && forall j :: 0 <= j < k ==> !Matches(rules[j], row)
  }

  /** A table-driven classifier: try `rules` in order and let the first match decide. */
  function ByRules(rules: seq<Rule>, row: Row): Fate {
    if rules == [] then Dropped
    else if Matches(rules[0], row) then Settle(rules[0], row)
    else ByRules(rules[1..], row)
  }

  /** The table-driven classifier drops a row iff no rule matches, and otherwise lets the first match decide. */
  lemma {:induction false} ByRulesIsFirstMatch(rules: seq<Rule>, row: Row)
    ensures ByRules(rules, row) == Dropped <==> forall k :: 0 <= k < |rules| ==> !Matches(rules[k], row)
    ensures forall k :: FirstMatching(rules, k, row) ==> ByRules(rules, row) == Settle(rules[k], row)
    decreases |rules|
  {
    if rules != [] {
      ByRulesIsFirstMatch(rules[1..], row);
      assert forall k :: 1 <= k < |rules| ==> rules[k] == rules[1..][k - 1];
      forall k | FirstMatching(rules, k, row)
        ensures ByRules(rules, row) == Settle(rules[k], row)
      {
        if k > 0 {
          assert FirstMatching(rules[1..], k - 1, row);
        }
      }
      if !Matches(rules[0], row) && ByRules(rules, row) != Dropped {
        var k :| 0 <= k < |rules[1..]| && Matches(rules[1..][k], row);
        assert Matches(rules[k + 1], row);
      }
    }
  }

  /** The if/else-if chain is the table-driven classifier run on the precedence list. */
  lemma RouteFollowsPrecedence(row: Row)
    ensures Route(row) == ByRules(Precedence, row)
  {
    var p0 := Precedence;
    var p1 := [Variant, Color, Component, PricingRange, Provider, Plan, FinanceOption];
    var p2 := [Color, Component, PricingRange, Provider, Plan, FinanceOption];
    var p3 := [Component, PricingRange, Provider, Plan, FinanceOption];
    assert p0[1..] == p1 && p1[1..] == p2 && p2[1..] == p3;
    LaterRules(row);
    assert ByRules(p2, row) == (if Matches(Color, row) then Into(Colors) else ByRules(p3, row));
    assert ByRules(p1, row) == (if Matches(Variant, row) then Into(Variants) else ByRules(p2, row));
    assert ByRules(p0, row) == (if Matches(Model, row) then Into(Models) else ByRules(p1, row));
  }

  /** The last five rules of the precedence list are the tail of the source's chain of tests. */
  lemma LaterRules(row: Row)
    ensures ByRules([Component, PricingRange, Provider, Plan, FinanceOption], row) ==
              if Truthy(row, "component_type") then Into(Components)
              else if Truthy(row, "pincode_start") && Truthy(row, "pincode_end") then Into(Pricing)
              else if Truthy(row, "logo_url") && !Truthy(row, "provider_id") && !Truthy(row, "plan_type") && !Truthy(row, "interest_rate") then
                Settle(Provider, row)
              else if Truthy(row, "plan_type") then Into(InsurancePlans)
              else if Truthy(row, "interest_rate") then Into(FinanceOptions)
              else Dropped
  {
    var p3 := [Component, PricingRange, Provider, Plan, FinanceOption];
    var p4 := [PricingRange, Provider, Plan, FinanceOption];
    var p5 := [Provider, Plan, FinanceOption];
    var p6 := [Plan, FinanceOption];
    var p7 := [FinanceOption];
    assert p3[1..] == p4 && p4[1..] == p5 && p5[1..] == p6 && p6[1..] == p7 && p7[1..] == [];
    assert ByRules(p7, row) == (if Matches(FinanceOption, row) then Into(FinanceOptions) else Dropped);
    assert ByRules(p6, row) == (if Matches(Plan, row) then Into(InsurancePlans) else ByRules(p7, row));
    assert ByRules(p5, row) == (if Matches(Provider, row) then Settle(Provider, row) else ByRules(p6, row));
    assert ByRules(p4, row) == (if Matches(PricingRange, row) then Into(Pricing) else ByRules(p5, row));
    assert ByRules(p3, row) == (if Matches(Component, row) then Into(Components) else ByRules(p4, row));
  }

  /**
   * Classification is first-match in the fixed precedence order: a row matched
   * by no rule is dropped, and otherwise the first matching rule alone decides
   * its fate, whatever later rules it would also match.
   */
  lemma RouteIsFirstMatch(row: Row)
    ensures Route(row) == Dropped <==> forall k :: 0 <= k < |Precedence| ==> !Matches(Precedence[k], row)
    ensures forall k :: FirstMatching(Precedence, k, row) ==> Route(row) == Settle(Precedence[k], row)
  {
    RouteFollowsPrecedence(row);
    ByRulesIsFirstMatch(Precedence, row);
  }

  /**
   * The provider split: a row that reaches the provider rule is a finance
   * provider exactly when its `name` contains "BANK", an insurance provider
   * when its `name` is searchable but does not, and it throws when `name` is
   * absent or has no `includes` method.
   */
  lemma ProviderSplit(row: Row)
    requires FirstMatching(Precedence, 5, row)
    ensures Route(row) == Into(FinanceProviders) <==> NameIncludes(row, "BANK") == Some(true)
    ensures Route(row) == Into(InsuranceProviders) <==> NameIncludes(row, "BANK") == Some(false)
    ensures Route(row) == Throws <==> !("name" in row && (row["name"].Str? || row["name"].Arr?))
  {
    RouteIsFirstMatch(row);
  }

  /** Only the provider rule can throw. */
  lemma OnlyProvidersThrow(row: Row)
    ensures Route(row) == Throws ==> FirstMatching(Precedence, 5, row) && NameIncludes(row, "BANK").None?
  {
    if Route(row) == Throws {
      assert FirstMatching(Precedence, 5, row);
    }
  }

  /** The row as stored: the input row with `row_number` removed. */
  function Clean(row: Row): Row {
    row - {"row_number"}
  }

  /** A stored row lacks `row_number` and keeps every other field of the input row, with its value. */
  lemma CleanDropsOnlyRowNumber(row: Row)
    ensures "row_number" !in Clean(row)
    ensures forall k :: k in row && k != "row_number" ==> k in Clean(row) && Clean(row)[k] == row[k]
    ensures forall k :: k in Clean(row) ==> k in row
  {
  }

  /** The fate of every row, position by position. */
  function Fates(rows: seq<Row>): (fs: seq<Fate>)
    ensures |fs| == |rows|
    ensures forall i :: 0 <= i < |rows| ==> fs[i] == Route(rows[i])
  {
    seq(|rows|, i requires 0 <= i < |rows| => Route(rows[i]))
  }

  /** The positions in `fates` that hold `f`, collected from left to right. */
  function Picks(fates: seq<Fate>, f: Fate): (idx: seq<nat>)
    ensures forall k :: 0 <= k < |idx| ==> idx[k] < |fates|
    decreases |fates|
  {
    if fates == [] then []
    else
      var n := |fates| - 1;
      Picks(fates[..n], f) + (if fates[n] == f then [n] else [])
  }

  /**
   * The picks of `f` are strictly increasing and are exactly the positions
   * holding `f`: every row of that fate, each once, in input order.
   */
  lemma {:induction false} PicksInOrder(fates: seq<Fate>, f: Fate)
    ensures forall k, m :: 0 <= k < m < |Picks(fates, f)| ==> Picks(fates, f)[k] < Picks(fates, f)[m]
    ensures forall i :: 0 <= i < |fates| ==> (i in Picks(fates, f) <==> fates[i] == f)
    decreases |fates|
  {
    if fates != [] {
      var n := |fates| - 1;
      PicksInOrder(fates[..n], f);
      var p := Picks(fates[..n], f);
      assert forall i :: 0 <= i < n ==> fates[..n][i] == fates[i];
      assert n !in p;
    }
  }

  /** The cleaned rows at positions `idx`, in the order of `idx`. */
  function Gather(rows: seq<Row>, idx: seq<nat>): (out: seq<Row>)
    requires forall k :: 0 <= k < |idx| ==> idx[k] < |rows|
    ensures |out| == |idx|
    ensures forall k :: 0 <= k < |idx| ==> out[k] == Clean(rows[idx[k]])
  {
    seq(|idx|, k requires 0 <= k < |idx| => Clean(rows[idx[k]]))
  }

  /** Appending one fate adds its position to the picks of that fate and of no other. */
  lemma PicksSnoc(fates: seq<Fate>, x: Fate, f: Fate)
    ensures Picks(fates + [x], f) == Picks(fates, f) + (if x == f then [|fates|] else [])
  {
    assert (fates + [x])[..|fates|] == fates;
  }

  lemma GatherSnoc(rows: seq<Row>, idx: seq<nat>, i: nat)
    requires forall k :: 0 <= k < |idx| ==> idx[k] < |rows|
    requires i < |rows|
    ensures Gather(rows, idx + [i]) == Gather(rows, idx) + [Clean(rows[i])]
  {
  }

  /** After the first `i` rows of `fates`: none threw, and each table holds the cleaned picks of that table among them. */
  ghost predicate ClassifiedUpTo(rows: seq<Row>, fates: seq<Fate>, i: nat, tables: Tables)
    requires i <= |fates| == |rows|
  {
    && (forall j :: 0 <= j < i ==> fates[j] != Throws)
    && tables.Keys == AllTables
    && forall t :: t in AllTables ==> tables[t] == Gather(rows, Picks(fates[..i], Into(t)))
  }

  /** `row` appended to the table `fate` names; a row with no table leaves the tables as they are. */
  function Place(tables: Tables, fate: Fate, row: Row): Tables {
    if fate.Into? && fate.table in tables then tables[fate.table := tables[fate.table] + [row]] else tables
  }

  /** Placing a row changes only the table its fate names, by appending the row. */
  lemma PlaceEffect(tables: Tables, fate: Fate, row: Row, t: Table)
    requires t in tables
    ensures t in Place(tables, fate, row)
    ensures Place(tables, fate, row)[t] == tables[t] + (if fate == Into(t) then [row] else [])
  {
  }

  /** Placing a row of fate `f` at position `i` extends table `t` by it exactly when `f` names `t`. */
  lemma TableStep(rows: seq<Row>, fates: seq<Fate>, i: nat, t: Table, before: seq<Row>, after: seq<Row>)
    requires i < |fates| == |rows|
    requires before == Gather(rows, Picks(fates[..i], Into(t)))
    requires after == before + (if fates[i] == Into(t) then [Clean(rows[i])] else [])
    ensures after == Gather(rows, Picks(fates[..i + 1], Into(t)))
  {
    var p := Picks(fates[..i], Into(t));
    assert fates[..i + 1] == fates[..i] + [fates[i]];
    PicksSnoc(fates[..i], fates[i], Into(t));
    if fates[i] == Into(t) {
      assert Picks(fates[..i + 1], Into(t)) == p + [i];
      GatherSnoc(rows, p, i);
    } else {
      assert Picks(fates[..i + 1], Into(t)) == p;
    }
  }

  /** Placing row `i` by its fate extends the invariant from the first `i` rows to the first `i + 1`. */
  lemma ClassifyStep(rows: seq<Row>, fates: seq<Fate>, i: nat, before: Tables, after: Tables)
    requires i < |fates| == |rows| && fates[i] != Throws
    requires ClassifiedUpTo(rows, fates, i, before)
    requires after == Place(before, fates[i], Clean(rows[i]))
    ensures ClassifiedUpTo(rows, fates, i + 1, after)
  {
    forall t | t in AllTables
      ensures after[t] == Gather(rows, Picks(fates[..i + 1], Into(t)))
    {
      PlaceEffect(before, fates[i], Clean(rows[i]), t);
      TableStep(rows, fates, i, t, before[t], after[t]);
    }
  }

  /** Why a classification run aborted: the row at `index` has a `name` without `includes`. */
  datatype ClassifyError = NameNotSearchable(index: nat)

  /**
   * The classifier. On success every one of the nine tables is present and
   * holds, in input order, the cleaned rows routed to it and no others; it
   * fails exactly when some row throws, reporting the first such row.
   */
  method ProcessData(rawData: seq<Row>) returns (r: Result<Tables, ClassifyError>)
    ensures r.Success? <==> forall i :: 0 <= i < |rawData| ==> Route(rawData[i]) != Throws
    ensures r.Success? ==> r.value.Keys == AllTables
    ensures r.Success? ==> forall t :: t in AllTables ==> r.value[t] == Gather(rawData, Picks(Fates(rawData), Into(t)))
    ensures r.Failure? ==>
              && r.error.index < |rawData|
              && Route(rawData[r.error.index]) == Throws
              && forall j :: 0 <= j < r.error.index ==> Route(rawData[j]) != Throws
  {
    var tables: Tables := map t | t in AllTables :: [];
    ghost var fates := Fates(rawData);
    var i := 0;
    assert fates[..0] == [];
    while i < |rawData|
      invariant 0 <= i <= |rawData|
      invariant ClassifiedUpTo(rawData, fates, i, tables)
    {
      var fate := Route(rawData[i]);
      if fate == Throws {
        return Failure(NameNotSearchable(i));
      }
      var next := Place(tables, fate, Clean(rawData[i]));
      ClassifyStep(rawData, fates, i, tables, next);
      tables := next;
      i := i + 1;
    }
    assert fates[..i] == fates;
    return Success(tables);
  }

  /** Every fate a row can have, each once. */
  const AllFates: seq<Fate> :=
    [Into(Models), Into(Variants), Into(Colors), Into(Components), Into(Pricing),
     Into(InsuranceProviders), Into(InsurancePlans), Into(FinanceProviders), Into(FinanceOptions),
     Dropped, Throws]

  lemma FateListed(f: Fate)
    ensures f in AllFates
  {
    match f {
      case Into(t) =>
        match t {
          case Models => assert AllFates[0] == f;
          case Variants => assert AllFates[1] == f;
          case Colors => assert AllFates[2] == f;
          case Components => assert AllFates[3] == f;
          case Pricing => assert AllFates[4] == f;
          case InsuranceProviders => assert AllFates[5] == f;
          case InsurancePlans => assert AllFates[6] == f;
          case FinanceProviders => assert AllFates[7] == f;
          case FinanceOptions => assert AllFates[8] == f;
        }
      case Dropped => assert AllFates[9] == f;
      case Throws => assert AllFates[10] == f;
    }
  }

  /** The number of positions whose fate is one of `those`, summed fate by fate. */
  function PickTotal(fates: seq<Fate>, those: seq<Fate>): nat {
    if those == [] then 0 else |Picks(fates, those[0])| + PickTotal(fates, those[1..])
  }

  lemma {:induction false} PickTotalSnoc(fates: seq<Fate>, x: Fate, those: seq<Fate>)
    requires forall a, b :: 0 <= a < b < |those| ==> those[a] != those[b]
    ensures PickTotal(fates + [x], those) == PickTotal(fates, those) + (if x in those then 1 else 0)
    decreases |those|
  {
    if those != [] {
      PicksSnoc(fates, x, those[0]);
      PickTotalSnoc(fates, x, those[1..]);
      if x == those[0] {
        assert x !in those[1..];
      } else {
        assert x in those <==> x in those[1..];
      }
    }
  }

  lemma {:induction false} NothingPickedFromNothing(those: seq<Fate>)
    ensures PickTotal([], those) == 0
    decreases |those|
  {
    if those != [] {
      NothingPickedFromNothing(those[1..]);
    }
  }

  /**
   * Partition: every input row has exactly one fate, so the rows appended to
   * the nine tables, the rows dropped and the rows that throw add up to the
   * whole input, with no row counted twice.
   */
  lemma {:induction false} EveryRowHasOneFate(fates: seq<Fate>)
    ensures PickTotal(fates, AllFates) == |fates|
    decreases |fates|
  {
    if fates == [] {
      NothingPickedFromNothing(AllFates);
    } else {
      var n := |fates| - 1;
      EveryRowHasOneFate(fates[..n]);
      assert fates[..n] + [fates[n]] == fates;
      FateListed(fates[n]);
      PickTotalSnoc(fates[..n], fates[n], AllFates);
    }
  }
}
