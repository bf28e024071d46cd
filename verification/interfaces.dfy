/**
 * The data interfaces a project can enable, shared by the project creation
 * and project edit pages (`INTERFACES`), and the map of on/off flags the
 * forms keep for them.
 */
module Interfaces {
  import JsValues

  /** The keys of `INTERFACES`, in display order. */
  const InterfaceKeys: seq<string> := [
    "historical_sales", "historical_campaigns", "historical_product_location_campaigns",
    "historical_production_material_issues_and_receipts", "sales", "balances",
    "batch_balances", "customer_orders", "distribution_orders", "purchase_orders",
    "distribution_links", "locations", "product_groups", "product_structure_routings",
    "product_structures", "production_capacities", "production_order_operations",
    "end_customers", "campaigns", "product_location_campaigns", "product_replacements",
    "suppliers", "purchase_capacities", "distribution_resources", "production_orders",
    "production_resources", "production_shift_patterns", "product_locations", "products",
    "stock_areas", "output_demand_plans", "output_distribution_requisitions",
    "output_purchase_requisitions", "output_planned_production_orders",
    "output_production_order_changes"
  ]

  /** The keys of the first `n` interfaces. */
  function KeysUpTo(n: nat): set<string>
    requires n <= |InterfaceKeys|
  {
    set i | 0 <= i < n :: InterfaceKeys[i]
  }

  /** One more interface, one more key. */
  lemma KeysUpToStep(i: nat)
    requires i < |InterfaceKeys|
    ensures KeysUpTo(i + 1) == KeysUpTo(i) + {InterfaceKeys[i]}
  {
  }

  function KeySet(): set<string> {
    KeysUpTo(|InterfaceKeys|)
  }

  /** The flags the form keeps: one entry per interface. */
  type Flags = map<string, bool>

  /** `{...prev, [key]: !prev[key]}`: a missing key reads as `undefined` and becomes `true`. */
  function Toggled(m: Flags, key: string): (r: Flags)
    ensures r.Keys == m.Keys + {key}
    ensures r[key] == !(key in m && m[key])
    ensures forall k :: k in m && k != key ==> r[k] == m[k]
  {
    m[key := !(key in m && m[key])]
  }

  /** Toggling the same interface twice restores the map. */
  lemma ToggleTwice(m: Flags, key: string)
    requires key in m
    ensures Toggled(Toggled(m, key), key) == m
  {
    var r := Toggled(Toggled(m, key), key);
    assert forall k :: k in r <==> k in m;
  }

  /** Toggles of distinct interfaces commute. */
  lemma TogglesCommute(m: Flags, a: string, b: string)
    requires a != b
    ensures Toggled(Toggled(m, a), b) == Toggled(Toggled(m, b), a)
  {
  }

  /** The map of every interface switched off (the creation page's start and reset state). */
  method AllOff() returns (m: Flags)
    ensures m.Keys == KeySet()
    ensures forall k :: k in m ==> !m[k]
  {
    m := map[];
    for i := 0 to |InterfaceKeys|
      invariant m.Keys == KeysUpTo(i)
      invariant forall k :: k in m ==> !m[k]
    {
      KeysUpToStep(i);
      m := m[InterfaceKeys[i] := false];
    }
  }

  /** A record's value for an interface; a missing field is `undefined`. */
  function FlagOf(fields: map<string, JsValues.Flag>, key: string): (r: JsValues.Flag)
    ensures key !in fields ==> r == JsValues.Undefined
    ensures key in fields ==> r == fields[key]
  {
    if key in fields then fields[key] else JsValues.Undefined
  }

  /** The map loaded from a project record: `project[key] || false` for every interface. */
  function LoadedFlags(fields: map<string, JsValues.Flag>): (r: Flags)
    ensures r.Keys == KeySet()
    ensures forall k :: k in r ==> (r[k] <==> FlagOf(fields, k) == JsValues.Bool(true))
  {
    map k | k in KeySet() :: JsValues.Truthy(FlagOf(fields, k))
  }

  /**
   * `fetchProjectData` filling the map key by key: every interface present,
   * on exactly when the record holds `true` for it.
   */
  method LoadFlags(fields: map<string, JsValues.Flag>) returns (m: Flags)
    ensures m.Keys == KeySet()
    ensures forall k :: k in m ==> (m[k] <==> FlagOf(fields, k) == JsValues.Bool(true))
    ensures m == LoadedFlags(fields)
  {
    m := map[];
    for i := 0 to |InterfaceKeys|
      invariant m.Keys == KeysUpTo(i)
      invariant forall k :: k in m ==> (m[k] <==> FlagOf(fields, k) == JsValues.Bool(true))
    {
      KeysUpToStep(i);
      m := m[InterfaceKeys[i] := JsValues.Truthy(FlagOf(fields, InterfaceKeys[i]))];
    }
    LoadedFlagsEqual(m, fields);
  }

  /** A map with an entry for every interface, each the record's truthiness, is the loaded map. */
  lemma LoadedFlagsEqual(m: Flags, fields: map<string, JsValues.Flag>)
    requires m.Keys == KeySet()
    requires forall k :: k in m ==> (m[k] <==> FlagOf(fields, k) == JsValues.Bool(true))
    ensures m == LoadedFlags(fields)
  {
  }

  /** Every interface of the list has an entry. */
  predicate Complete(m: Flags) {
    forall i :: 0 <= i < |InterfaceKeys| ==> InterfaceKeys[i] in m
  }

  lemma CompleteFromKeys(m: Flags)
    requires KeySet() <= m.Keys
    ensures Complete(m)
  {
    forall i | 0 <= i < |InterfaceKeys| ensures InterfaceKeys[i] in m {
      assert InterfaceKeys[i] in KeySet();
    }
  }

  /** Toggling keeps every entry. */
  lemma ToggledComplete(m: Flags, key: string)
    requires Complete(m)
    ensures Complete(Toggled(m, key))
  {
  }
}
