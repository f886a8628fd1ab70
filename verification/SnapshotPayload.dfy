/** The payload of a finalized case's decision snapshot: fixed keys at every level around the persisted values. */
module SnapshotPayload {
  import opened Options
  import opened JsonText
  import opened TextOrder
  import opened CanonicalJson
  import opened DatabaseJson
  import Snapshots
  import Whitespace

  // ----- the keys ----------------------------------------------------------------------

  const SNAPSHOT_KEYS: seq<string> := [
    "allocation_reference", "approver", "conversion_version", "decision_reasons", "document_hashes",
    "engine_version", "internal_results", "item_decisions", "lot_reference", "mapping", "missing_policy",
    "overall_decision", "policy_version", "rounding_version", "sample_policy", "source_policy", "spec_items",
    "spec_version", "supplier_results", "unit_conversions"]

  const VERSION_KEYS: seq<string> := [
    "effective_from", "effective_to", "id", "profile_id", "semantic_version", "status"]

  const RULE_KEYS: seq<string> := [
    "allowed", "id", "lower", "missing_policy", "operator", "precision", "required", "sample_policy",
    "source_policy", "standard_test_item_id", "target", "tolerance", "unit", "upper"]

  const MAPPING_KEYS: seq<string> := [
    "standard_test_item_id", "status", "supplier_result_id"]

  const SUPPLIER_KEYS: seq<string> := [
    "hyc_decision", "id", "mapping_status", "standard_test_item_id", "supplier_decision", "text", "value"]

  const INTERNAL_KEYS: seq<string> := [
    "decision", "id", "spec_item_id", "text", "value"]

  const CONVERSION_KEYS: seq<string> := [
    "mode", "version"]

  const DECISION_KEYS: seq<string> := [
    "aggregations", "completed_stages", "failure_codes", "hyc_supplier", "internal", "overall", "spec_item_id",
    "supplier"]

  const AGGREGATION_KEYS: seq<string> := [
    "arithmetic_version", "policy", "pre_round", "result", "rounding_scale", "rounding_version", "source"]

  const APPROVER_KEYS: seq<string> := [
    "actor_id", "role"]

  const LOT_KEYS: seq<string> := [
    "identity_key", "identity_policy_version", "lot_id"]

  const ALLOCATION_KEYS: seq<string> := [
    "allocation_id", "model_id"]

  const REASON_KEYS: seq<string> := [
    "candidate", "final", "hold_precedence", "reason"]

  const STATUS_KEYS: seq<string> := [
    "status"]

  /** Every list of keys an object of the payload can have. */
  const KEY_LISTS: seq<seq<string>> := [
    SNAPSHOT_KEYS, VERSION_KEYS, RULE_KEYS, MAPPING_KEYS, SUPPLIER_KEYS, INTERNAL_KEYS, CONVERSION_KEYS, DECISION_KEYS,
    AGGREGATION_KEYS, APPROVER_KEYS, LOT_KEYS, ALLOCATION_KEYS, REASON_KEYS, STATUS_KEYS]

  // ----- the payload -------------------------------------------------------------------

  /** A value that is no container. */
  predicate IsLeaf(v: Value) {
    !v.Dict? && !v.List? && !v.Tuple?
  }

  predicate AllLeaves(values: seq<Value>) {
    forall i :: 0 <= i < |values| ==> IsLeaf(values[i])
  }

  /** As many plain values as there are keys. */
  predicate Fills(keys: seq<string>, values: seq<Value>) {
    |values| == |keys| && AllLeaves(values)
  }

  /** A rule's plain values, and the texts it allows or null. */
  datatype RuleFacts = RuleFacts(allowed: Option<seq<string>>, rest: seq<Value>)

  datatype DecisionFacts = DecisionFacts(aggregations: seq<seq<Value>>, stages: seq<string>, failures: seq<string>,
                                         rest: seq<Value>)

  /** What the database holds about the case, in the order of the keys. */
  datatype Facts = Facts(
    version: seq<Value>, rules: seq<RuleFacts>, suppliers: seq<(seq<Value>, seq<Value>)>, internals: seq<seq<Value>>,
    decisions: seq<DecisionFacts>, sources: seq<string>, missing: seq<string>, samples: seq<string>,
    lot: seq<Value>, allocation: seq<Value>, actor: Value)

  predicate FactsOk(f: Facts) {
    && Fills(VERSION_KEYS, f.version) && Fills(LOT_KEYS, f.lot) && Fills(ALLOCATION_KEYS, f.allocation) && IsLeaf(f.actor)
    && (forall i :: 0 <= i < |f.rules| ==> Fills(RULE_KEYS[1..], f.rules[i].rest))
    && (forall i :: 0 <= i < |f.suppliers| ==>
          Fills(MAPPING_KEYS, f.suppliers[i].0) && Fills(SUPPLIER_KEYS, f.suppliers[i].1))
    && (forall i :: 0 <= i < |f.internals| ==> Fills(INTERNAL_KEYS, f.internals[i]))
    && (forall i :: 0 <= i < |f.decisions| ==> DecisionOk(f.decisions[i]))
    && f.rules != [] && |f.decisions| == |f.sources| == |f.missing| == |f.samples| == |f.rules|
  }

  predicate DecisionOk(d: DecisionFacts) {
    Fills(DECISION_KEYS[3..], d.rest) && forall i :: 0 <= i < |d.aggregations| ==> Fills(AGGREGATION_KEYS, d.aggregations[i])
  }

  const BLANK := Facts(
    Nulls(6), [RuleFacts(None, Nulls(13))], [], [], [DecisionFacts([], [], [], Nulls(5))], [""], [""], [""],
    Nulls(3), Nulls(2), Null)

  function Nulls(n: nat): seq<Value> {
    seq(n, _ => Null)
  }

  type CaseFacts = f: Facts | FactsOk(f) witness BLANK

  function Items(values: seq<Value>): Values {
    if values == [] then Nil else Cons(values[0], Items(values[1..]))
  }

  function Texts(texts: seq<string>): seq<Value> {
    seq(|texts|, i requires 0 <= i < |texts| => Str(texts[i]))
  }

  function TextList(texts: seq<string>): Value {
    List(Items(Texts(texts)))
  }

  function Bind(keys: seq<string>, values: seq<Value>): Entries
    requires |values| == |keys|
  {
    if keys == [] then Empty else Entry(StrKey(keys[0]), values[0], Bind(keys[1..], values[1..]))
  }

  function Object(keys: seq<string>, values: seq<Value>): Value
    requires |values| == |keys|
  {
    Dict(Bind(keys, values))
  }

  function RuleObject(r: RuleFacts): Value
    requires Fills(RULE_KEYS[1..], r.rest)
  {
    Object(RULE_KEYS, [if r.allowed.Some? then TextList(r.allowed.value) else Null] + r.rest)
  }

  function DecisionObject(d: DecisionFacts): Value
    requires DecisionOk(d)
  {
    var aggregations := seq(|d.aggregations|, i requires 0 <= i < |d.aggregations| => Object(AGGREGATION_KEYS, d.aggregations[i]));
    var failures := if d.failures == [] then ["NONE"] else d.failures;
    Object(DECISION_KEYS, [List(Items(aggregations)), TextList(d.stages), TextList(failures)] + d.rest)
  }

  /** The objects, or one that only tells the status when there are none. */
  function OrStatus(objects: seq<Value>, status: string): Value {
    List(Items(if objects == [] then [Object(STATUS_KEYS, [Str(status)])] else objects))
  }

  function Mappings(f: Facts): (r: seq<Value>)
    requires FactsOk(f)
    ensures |r| == |f.suppliers|
  {
    seq(|f.suppliers|, i requires 0 <= i < |f.suppliers| => Object(MAPPING_KEYS, f.suppliers[i].0))
  }

  function Suppliers(f: Facts): (r: seq<Value>)
    requires FactsOk(f)
    ensures |r| == |f.suppliers|
  {
    seq(|f.suppliers|, i requires 0 <= i < |f.suppliers| => Object(SUPPLIER_KEYS, f.suppliers[i].1))
  }

  function Internals(f: Facts): (r: seq<Value>)
    requires FactsOk(f)
    ensures |r| == |f.internals|
  {
    seq(|f.internals|, i requires 0 <= i < |f.internals| => Object(INTERNAL_KEYS, f.internals[i]))
  }

  function RuleObjects(f: Facts): (r: seq<Value>)
    requires FactsOk(f)
    ensures |r| == |f.rules|
  {
    seq(|f.rules|, i requires 0 <= i < |f.rules| => RuleObject(f.rules[i]))
  }

  function DecisionObjects(f: Facts): (r: seq<Value>)
    requires FactsOk(f)
    ensures |r| == |f.decisions|
  {
    seq(|f.decisions|, i requires 0 <= i < |f.decisions| => DecisionObject(f.decisions[i]))
  }

  const CONVERSION_VERSION := "P2_NORMALIZED_PERSISTENCE_V1"
  const ENGINE_VERSION := "P2_JUDGMENT_ENGINE_V1"
  const POLICY_VERSION := "P2_FAIL_CLOSED_POLICY_V1"
  const ROUNDING_VERSION := "P2_HALF_EVEN_V1"

  function Reasons(candidate: string, final: string, reason: string): seq<Value> {
    [Str(candidate), Str(final), Str("ON_HOLD_OVER_REJECTED_V1"), Str(reason)]
  }

  function Conversions(): seq<Value> {
    [Str("persisted normalized Decimal values"), Str(CONVERSION_VERSION)]
  }

  /** The payload's values, in the order of its keys. */
  function Parts(f: Facts, candidate: string, final: string, reason: string, documents: seq<string>): (parts: seq<Value>)
    requires FactsOk(f)
    ensures |parts| == |SNAPSHOT_KEYS|
  {
    [Object(ALLOCATION_KEYS, f.allocation), Object(APPROVER_KEYS, [f.actor, Str("LEAD")]), Str(CONVERSION_VERSION),
     Object(REASON_KEYS, Reasons(candidate, final, reason)), TextList(documents), Str(ENGINE_VERSION),
     OrStatus(Internals(f), "MISSING"), List(Items(DecisionObjects(f))), Object(LOT_KEYS, f.lot),
     OrStatus(Mappings(f), "NO_SUPPLIER_MAPPING_INTERNAL_ONLY"), TextList(f.missing), Str(candidate),
     Str(POLICY_VERSION), Str(ROUNDING_VERSION), TextList(f.samples), TextList(f.sources), List(Items(RuleObjects(f))),
     Object(VERSION_KEYS, f.version), OrStatus(Suppliers(f), "MISSING"), Object(CONVERSION_KEYS, Conversions())]
  }

  function Payload(f: Facts, candidate: string, final: string, reason: string, documents: seq<string>): Value
    requires FactsOk(f)
  {
    Object(SNAPSHOT_KEYS, Parts(f, candidate, final, reason, documents))
  }

  // ----- orders on fixed keys ----------------------------------------------------------

  /** The texts first differ at `k`, in characters that are no underscores. */
  predicate DiffersAt(a: string, b: string, k: nat) {
    k < |a| && k < |b| && (forall i :: 0 <= i < k ==> a[i] == b[i]) && a[k] < b[k] && a[k] != '_' && b[k] != '_'
  }

  ghost predicate Differs(a: string, b: string) {
    exists k: nat :: DiffersAt(a, b, k)
  }

  ghost predicate DifferPlainly(keys: seq<string>) {
    forall i :: 0 <= i < |keys| - 1 ==> Differs(keys[i], keys[i + 1])
  }

  /** Every key comes before the next. */
  ghost predicate InOrder(keys: seq<string>, before: Collation) {
    forall i :: 0 <= i < |keys| - 1 ==> before(keys[i], keys[i + 1])
  }

  /** The collation puts every list of keys in code-point order. */
  ghost predicate OrdersKeys(before: Collation) {
    forall l :: 0 <= l < |KEY_LISTS| ==> InOrder(KEY_LISTS[l], before)
  }

  lemma {:induction false} LessAt(a: string, b: string, k: nat)
    requires k < |a| && k < |b| && (forall i :: 0 <= i < k ==> a[i] == b[i]) && a[k] < b[k]
    ensures Less(a, b)
    decreases k
  {
    if k > 0 {
      LessAt(a[1..], b[1..], k - 1);
    }
  }

  lemma {:induction false} MarksSplit(s: string, k: nat)
    requires k <= |s|
    ensures WithoutMarks(s) == WithoutMarks(s[..k]) + WithoutMarks(s[k..])
    decreases k
  {
    if k > 0 {
      MarksSplit(s[1..], k - 1);
      assert s[..k][1..] == s[1..][..k - 1] && s[1..][k - 1..] == s[k..];
    } else {
      assert s[..0] == [] && s[0..] == s;
    }
  }

  lemma PlainDifference(a: string, b: string, k: nat)
    requires DiffersAt(a, b, k)
    ensures Less(a, b) && IgnoringMarks(a, b)
  {
    LessAt(a, b, k);
    MarksSplit(a, k);
    MarksSplit(b, k);
    assert a[..k] == b[..k];
    var p := WithoutMarks(a[..k]);
    LessAt(WithoutMarks(a), WithoutMarks(b), |p|);
  }

  lemma SnapshotKeysDifferFrom0()
    ensures Differs(SNAPSHOT_KEYS[0], SNAPSHOT_KEYS[1])
    ensures Differs(SNAPSHOT_KEYS[1], SNAPSHOT_KEYS[2])
    ensures Differs(SNAPSHOT_KEYS[2], SNAPSHOT_KEYS[3])
  {
    assert DiffersAt("allocation_reference", "approver", 1);
    assert DiffersAt("approver", "conversion_version", 0);
    assert DiffersAt("conversion_version", "decision_reasons", 0);
  }

  lemma SnapshotKeysDifferFrom3()
    ensures Differs(SNAPSHOT_KEYS[3], SNAPSHOT_KEYS[4])
    ensures Differs(SNAPSHOT_KEYS[4], SNAPSHOT_KEYS[5])
    ensures Differs(SNAPSHOT_KEYS[5], SNAPSHOT_KEYS[6])
  {
    assert DiffersAt("decision_reasons", "document_hashes", 1);
    assert DiffersAt("document_hashes", "engine_version", 0);
    assert DiffersAt("engine_version", "internal_results", 0);
  }

  lemma SnapshotKeysDifferFrom6()
    ensures Differs(SNAPSHOT_KEYS[6], SNAPSHOT_KEYS[7])
    ensures Differs(SNAPSHOT_KEYS[7], SNAPSHOT_KEYS[8])
    ensures Differs(SNAPSHOT_KEYS[8], SNAPSHOT_KEYS[9])
  {
    assert DiffersAt("internal_results", "item_decisions", 1);
    assert DiffersAt("item_decisions", "lot_reference", 0);
    assert DiffersAt("lot_reference", "mapping", 0);
  }

  lemma SnapshotKeysDifferFrom9()
    ensures Differs(SNAPSHOT_KEYS[9], SNAPSHOT_KEYS[10])
    ensures Differs(SNAPSHOT_KEYS[10], SNAPSHOT_KEYS[11])
    ensures Differs(SNAPSHOT_KEYS[11], SNAPSHOT_KEYS[12])
  {
    assert DiffersAt("mapping", "missing_policy", 1);
    assert DiffersAt("missing_policy", "overall_decision", 0);
    assert DiffersAt("overall_decision", "policy_version", 0);
  }

  lemma SnapshotKeysDifferFrom12()
    ensures Differs(SNAPSHOT_KEYS[12], SNAPSHOT_KEYS[13])
    ensures Differs(SNAPSHOT_KEYS[13], SNAPSHOT_KEYS[14])
    ensures Differs(SNAPSHOT_KEYS[14], SNAPSHOT_KEYS[15])
  {
    assert DiffersAt("policy_version", "rounding_version", 0);
    assert DiffersAt("rounding_version", "sample_policy", 0);
    assert DiffersAt("sample_policy", "source_policy", 1);
  }

  lemma SnapshotKeysDifferFrom15()
    ensures Differs(SNAPSHOT_KEYS[15], SNAPSHOT_KEYS[16])
    ensures Differs(SNAPSHOT_KEYS[16], SNAPSHOT_KEYS[17])
    ensures Differs(SNAPSHOT_KEYS[17], SNAPSHOT_KEYS[18])
  {
    assert DiffersAt("source_policy", "spec_items", 1);
    assert DiffersAt("spec_items", "spec_version", 5);
    assert DiffersAt("spec_version", "supplier_results", 1);
  }

  lemma SnapshotKeysDifferFrom18()
    ensures Differs(SNAPSHOT_KEYS[18], SNAPSHOT_KEYS[19])
  {
    assert DiffersAt("supplier_results", "unit_conversions", 0);
  }

  lemma SnapshotKeysDiffer()
    ensures DifferPlainly(SNAPSHOT_KEYS)
  {
    hide Differs;
    SnapshotKeysDifferFrom0();
    SnapshotKeysDifferFrom3();
    SnapshotKeysDifferFrom6();
    SnapshotKeysDifferFrom9();
    SnapshotKeysDifferFrom12();
    SnapshotKeysDifferFrom15();
    SnapshotKeysDifferFrom18();
  }

  lemma VersionKeysDifferFrom0()
    ensures Differs(VERSION_KEYS[0], VERSION_KEYS[1])
    ensures Differs(VERSION_KEYS[1], VERSION_KEYS[2])
    ensures Differs(VERSION_KEYS[2], VERSION_KEYS[3])
  {
    assert DiffersAt("effective_from", "effective_to", 10);
    assert DiffersAt("effective_to", "id", 0);
    assert DiffersAt("id", "profile_id", 0);
  }

  lemma VersionKeysDifferFrom3()
    ensures Differs(VERSION_KEYS[3], VERSION_KEYS[4])
    ensures Differs(VERSION_KEYS[4], VERSION_KEYS[5])
  {
    assert DiffersAt("profile_id", "semantic_version", 0);
    assert DiffersAt("semantic_version", "status", 1);
  }

  lemma VersionKeysDiffer()
    ensures DifferPlainly(VERSION_KEYS)
  {
    hide Differs;
    VersionKeysDifferFrom0();
    VersionKeysDifferFrom3();
  }

  lemma RuleKeysDifferFrom0()
    ensures Differs(RULE_KEYS[0], RULE_KEYS[1])
    ensures Differs(RULE_KEYS[1], RULE_KEYS[2])
    ensures Differs(RULE_KEYS[2], RULE_KEYS[3])
  {
    assert DiffersAt("allowed", "id", 0);
    assert DiffersAt("id", "lower", 0);
    assert DiffersAt("lower", "missing_policy", 0);
  }

  lemma RuleKeysDifferFrom3()
    ensures Differs(RULE_KEYS[3], RULE_KEYS[4])
    ensures Differs(RULE_KEYS[4], RULE_KEYS[5])
    ensures Differs(RULE_KEYS[5], RULE_KEYS[6])
  {
    assert DiffersAt("missing_policy", "operator", 0);
    assert DiffersAt("operator", "precision", 0);
    assert DiffersAt("precision", "required", 0);
  }

  lemma RuleKeysDifferFrom6()
    ensures Differs(RULE_KEYS[6], RULE_KEYS[7])
    ensures Differs(RULE_KEYS[7], RULE_KEYS[8])
    ensures Differs(RULE_KEYS[8], RULE_KEYS[9])
  {
    assert DiffersAt("required", "sample_policy", 0);
    assert DiffersAt("sample_policy", "source_policy", 1);
    assert DiffersAt("source_policy", "standard_test_item_id", 1);
  }

  lemma RuleKeysDifferFrom9()
    ensures Differs(RULE_KEYS[9], RULE_KEYS[10])
    ensures Differs(RULE_KEYS[10], RULE_KEYS[11])
    ensures Differs(RULE_KEYS[11], RULE_KEYS[12])
  {
    assert DiffersAt("standard_test_item_id", "target", 0);
    assert DiffersAt("target", "tolerance", 1);
    assert DiffersAt("tolerance", "unit", 0);
  }

  lemma RuleKeysDifferFrom12()
    ensures Differs(RULE_KEYS[12], RULE_KEYS[13])
  {
    assert DiffersAt("unit", "upper", 1);
  }

  lemma RuleKeysDiffer()
    ensures DifferPlainly(RULE_KEYS)
  {
    hide Differs;
    RuleKeysDifferFrom0();
    RuleKeysDifferFrom3();
    RuleKeysDifferFrom6();
    RuleKeysDifferFrom9();
    RuleKeysDifferFrom12();
  }

  lemma MappingKeysDiffer()
    ensures DifferPlainly(MAPPING_KEYS)
  {
    assert DiffersAt("standard_test_item_id", "status", 3);
    assert DiffersAt("status", "supplier_result_id", 1);
  }

  lemma SupplierKeysDifferFrom0()
    ensures Differs(SUPPLIER_KEYS[0], SUPPLIER_KEYS[1])
    ensures Differs(SUPPLIER_KEYS[1], SUPPLIER_KEYS[2])
    ensures Differs(SUPPLIER_KEYS[2], SUPPLIER_KEYS[3])
  {
    assert DiffersAt("hyc_decision", "id", 0);
    assert DiffersAt("id", "mapping_status", 0);
    assert DiffersAt("mapping_status", "standard_test_item_id", 0);
  }

  lemma SupplierKeysDifferFrom3()
    ensures Differs(SUPPLIER_KEYS[3], SUPPLIER_KEYS[4])
    ensures Differs(SUPPLIER_KEYS[4], SUPPLIER_KEYS[5])
    ensures Differs(SUPPLIER_KEYS[5], SUPPLIER_KEYS[6])
  {
    assert DiffersAt("standard_test_item_id", "supplier_decision", 1);
    assert DiffersAt("supplier_decision", "text", 0);
    assert DiffersAt("text", "value", 0);
  }

  lemma SupplierKeysDiffer()
    ensures DifferPlainly(SUPPLIER_KEYS)
  {
    hide Differs;
    SupplierKeysDifferFrom0();
    SupplierKeysDifferFrom3();
  }

  lemma InternalKeysDifferFrom0()
    ensures Differs(INTERNAL_KEYS[0], INTERNAL_KEYS[1])
    ensures Differs(INTERNAL_KEYS[1], INTERNAL_KEYS[2])
    ensures Differs(INTERNAL_KEYS[2], INTERNAL_KEYS[3])
  {
    assert DiffersAt("decision", "id", 0);
    assert DiffersAt("id", "spec_item_id", 0);
    assert DiffersAt("spec_item_id", "text", 0);
  }

  lemma InternalKeysDifferFrom3()
    ensures Differs(INTERNAL_KEYS[3], INTERNAL_KEYS[4])
  {
    assert DiffersAt("text", "value", 0);
  }

  lemma InternalKeysDiffer()
    ensures DifferPlainly(INTERNAL_KEYS)
  {
    hide Differs;
    InternalKeysDifferFrom0();
    InternalKeysDifferFrom3();
  }

  lemma ConversionKeysDiffer()
    ensures DifferPlainly(CONVERSION_KEYS)
  {
    assert DiffersAt("mode", "version", 0);
  }

  lemma DecisionKeysDifferFrom0()
    ensures Differs(DECISION_KEYS[0], DECISION_KEYS[1])
    ensures Differs(DECISION_KEYS[1], DECISION_KEYS[2])
    ensures Differs(DECISION_KEYS[2], DECISION_KEYS[3])
  {
    assert DiffersAt("aggregations", "completed_stages", 0);
    assert DiffersAt("completed_stages", "failure_codes", 0);
    assert DiffersAt("failure_codes", "hyc_supplier", 0);
  }

  lemma DecisionKeysDifferFrom3()
    ensures Differs(DECISION_KEYS[3], DECISION_KEYS[4])
    ensures Differs(DECISION_KEYS[4], DECISION_KEYS[5])
    ensures Differs(DECISION_KEYS[5], DECISION_KEYS[6])
  {
    assert DiffersAt("hyc_supplier", "internal", 0);
    assert DiffersAt("internal", "overall", 0);
    assert DiffersAt("overall", "spec_item_id", 0);
  }

  lemma DecisionKeysDifferFrom6()
    ensures Differs(DECISION_KEYS[6], DECISION_KEYS[7])
  {
    assert DiffersAt("spec_item_id", "supplier", 1);
  }

  lemma DecisionKeysDiffer()
    ensures DifferPlainly(DECISION_KEYS)
  {
    hide Differs;
    DecisionKeysDifferFrom0();
    DecisionKeysDifferFrom3();
    DecisionKeysDifferFrom6();
  }

  lemma AggregationKeysDifferFrom0()
    ensures Differs(AGGREGATION_KEYS[0], AGGREGATION_KEYS[1])
    ensures Differs(AGGREGATION_KEYS[1], AGGREGATION_KEYS[2])
    ensures Differs(AGGREGATION_KEYS[2], AGGREGATION_KEYS[3])
  {
    assert DiffersAt("arithmetic_version", "policy", 0);
    assert DiffersAt("policy", "pre_round", 1);
    assert DiffersAt("pre_round", "result", 0);
  }

  lemma AggregationKeysDifferFrom3()
    ensures Differs(AGGREGATION_KEYS[3], AGGREGATION_KEYS[4])
    ensures Differs(AGGREGATION_KEYS[4], AGGREGATION_KEYS[5])
    ensures Differs(AGGREGATION_KEYS[5], AGGREGATION_KEYS[6])
  {
    assert DiffersAt("result", "rounding_scale", 1);
    assert DiffersAt("rounding_scale", "rounding_version", 9);
    assert DiffersAt("rounding_version", "source", 0);
  }

  lemma AggregationKeysDiffer()
    ensures DifferPlainly(AGGREGATION_KEYS)
  {
    hide Differs;
    AggregationKeysDifferFrom0();
    AggregationKeysDifferFrom3();
  }

  lemma ApproverKeysDiffer()
    ensures DifferPlainly(APPROVER_KEYS)
  {
    assert DiffersAt("actor_id", "role", 0);
  }

  lemma LotKeysDiffer()
    ensures DifferPlainly(LOT_KEYS)
  {
    assert DiffersAt("identity_key", "identity_policy_version", 9);
    assert DiffersAt("identity_policy_version", "lot_id", 0);
  }

  lemma AllocationKeysDiffer()
    ensures DifferPlainly(ALLOCATION_KEYS)
  {
    assert DiffersAt("allocation_id", "model_id", 0);
  }

  lemma ReasonKeysDiffer()
    ensures DifferPlainly(REASON_KEYS)
  {
    assert DiffersAt("candidate", "final", 0);
    assert DiffersAt("final", "hold_precedence", 0);
    assert DiffersAt("hold_precedence", "reason", 0);
  }

  lemma StatusKeysDiffer()
    ensures DifferPlainly(STATUS_KEYS)
  {
  }

  /** What first differs in two letters, digits or other plain characters is ordered alike with and without underscores. */
  lemma PlainKeysInOrder(keys: seq<string>)
    requires DifferPlainly(keys)
    ensures InOrder(keys, Less) && InOrder(keys, IgnoringMarks)
  {
    hide DiffersAt, Less, IgnoringMarks;
    forall i | 0 <= i < |keys| - 1
      ensures Less(keys[i], keys[i + 1]) && IgnoringMarks(keys[i], keys[i + 1])
    {
      assert Differs(keys[i], keys[i + 1]);
      var k: nat :| DiffersAt(keys[i], keys[i + 1], k);
      PlainDifference(keys[i], keys[i + 1], k);
    }
  }

  lemma ListsDiffer(l: nat)
    requires l < |KEY_LISTS|
    ensures DifferPlainly(KEY_LISTS[l])
  {
    hide DifferPlainly;
    SnapshotKeysDiffer();
    VersionKeysDiffer();
    RuleKeysDiffer();
    MappingKeysDiffer();
    SupplierKeysDiffer();
    InternalKeysDiffer();
    ConversionKeysDiffer();
    DecisionKeysDiffer();
    AggregationKeysDiffer();
    ApproverKeysDiffer();
    LotKeysDiffer();
    AllocationKeysDiffer();
    ReasonKeysDiffer();
    StatusKeysDiffer();
  }

  /** Code points, and orders that ignore underscores at first, put all keys of the payload in the same order. */
  lemma PlainOrdersAgree()
    ensures OrdersKeys(Less) && OrdersKeys(IgnoringMarks)
  {
    hide DifferPlainly, InOrder;
    forall l | 0 <= l < |KEY_LISTS|
      ensures InOrder(KEY_LISTS[l], Less) && InOrder(KEY_LISTS[l], IgnoringMarks)
    {
      ListsDiffer(l);
      PlainKeysInOrder(KEY_LISTS[l]);
    }
  }

  lemma {:induction false} EarlierIsBefore(keys: seq<string>, before: Collation, i: nat, j: nat)
    requires IsOrder(before) && InOrder(keys, before) && i < j < |keys|
    ensures before(keys[i], keys[j])
  {
    if i + 1 < j {
      EarlierIsBefore(keys, before, i, j - 1);
      assert before(keys[j - 1], keys[j - 1 + 1]);
    }
  }

  lemma LessIsOrder()
    ensures IsOrder(Less)
  {
    forall a, b
      ensures (a == b || Less(a, b) || Less(b, a)) && !(Less(a, b) && Less(b, a))
    {
      LessIsTotal(a, b);
    }
    forall a, b, c | Less(a, b) && Less(b, c)
      ensures Less(a, c)
    {
      LessTransitive(a, b, c);
    }
  }

  lemma OrdersAlike(keys: seq<string>, before: Collation, a: string, b: string)
    requires IsOrder(before) && InOrder(keys, before) && InOrder(keys, Less) && a in keys && b in keys
    ensures before(a, b) <==> Less(a, b)
  {
    hide Less;
    LessIsOrder();
    var i :| 0 <= i < |keys| && keys[i] == a;
    var j :| 0 <= j < |keys| && keys[j] == b;
    if i < j {
      EarlierIsBefore(keys, before, i, j);
      EarlierIsBefore(keys, Less, i, j);
    } else if j < i {
      EarlierIsBefore(keys, before, j, i);
      EarlierIsBefore(keys, Less, j, i);
    }
  }

  // ----- the payload's keys are those listed -------------------------------------------

  ghost predicate KeysFrom(es: Entries, keys: seq<string>) {
    forall k :: HasKey(es, k) ==> k.StrKey? && k.s in keys
  }

  ghost predicate Listed(es: Entries) {
    exists l :: 0 <= l < |KEY_LISTS| && KeysFrom(es, KEY_LISTS[l])
  }

  /** Every object in the value takes its keys from one of the lists. */
  ghost predicate Keyed(v: Value) {
    match v
    case Dict(es) => Listed(es) && EntriesKeyed(es)
    case List(items) => AllKeyed(items)
    case Tuple(items) => AllKeyed(items)
    case _ => true
  }

  ghost predicate AllKeyed(items: Values) {
    items.Cons? ==> Keyed(items.head) && AllKeyed(items.tail)
  }

  ghost predicate EntriesKeyed(es: Entries) {
    es.Entry? ==> Keyed(es.value) && EntriesKeyed(es.rest)
  }

  ghost predicate Good(v: Value) {
    Keyed(v) && ProperDicts(v)
  }

  lemma LeafIsGood(v: Value)
    requires IsLeaf(v)
    ensures Good(v)
  {
  }

  lemma {:induction false} ItemsAreGood(values: seq<Value>)
    requires forall i :: 0 <= i < |values| ==> Good(values[i])
    ensures AllKeyed(Items(values)) && AllProper(Items(values))
  {
    hide Keyed, ProperDicts;
    if values != [] {
      assert Good(values[0]);
      ItemsAreGood(values[1..]);
    }
  }

  lemma TextListIsGood(texts: seq<string>)
    ensures Good(TextList(texts))
  {
    ItemsAreGood(Texts(texts));
  }

  lemma {:induction false} BindKeys(keys: seq<string>, values: seq<Value>, k: Key)
    requires |values| == |keys|
    ensures HasKey(Bind(keys, values), k) <==> k.StrKey? && k.s in keys
  {
    if keys != [] {
      BindKeys(keys[1..], values[1..], k);
    }
  }

  ghost predicate NoneTwice(keys: seq<string>) {
    forall i, j :: 0 <= i < j < |keys| ==> keys[i] != keys[j]
  }

  lemma {:induction false} BindIsGood(keys: seq<string>, values: seq<Value>)
    requires |values| == |keys| && NoneTwice(keys) && forall i :: 0 <= i < |values| ==> Good(values[i])
    ensures EntriesKeyed(Bind(keys, values)) && DistinctKeys(Bind(keys, values)) && EntriesProper(Bind(keys, values))
  {
    hide Keyed, ProperDicts, HasKey;
    if keys != [] {
      assert Good(values[0]);
      BindKeys(keys[1..], values[1..], StrKey(keys[0]));
      forall j | 0 <= j < |keys[1..]|
        ensures keys[1..][j] != keys[0]
      {
        assert keys[0] != keys[j + 1];
      }
      BindIsGood(keys[1..], values[1..]);
    }
  }

  lemma {:induction false} BindLookup(keys: seq<string>, values: seq<Value>, i: nat)
    requires |values| == |keys| && NoneTwice(keys) && i < |keys|
    ensures Lookup(Bind(keys, values), StrKey(keys[i])) == Some(values[i])
  {
    if i > 0 {
      assert keys[0] != keys[i];
      BindLookup(keys[1..], values[1..], i - 1);
    }
  }

  lemma ListedOnce(l: nat)
    requires l < |KEY_LISTS|
    ensures NoneTwice(KEY_LISTS[l])
  {
    hide Less;
    PlainOrdersAgree();
    LessIsOrder();
    var keys := KEY_LISTS[l];
    forall i, j | 0 <= i < j < |keys|
      ensures keys[i] != keys[j]
    {
      EarlierIsBefore(keys, Less, i, j);
    }
  }

  lemma ObjectIsGood(l: nat, values: seq<Value>)
    requires l < |KEY_LISTS| && |values| == |KEY_LISTS[l]| && forall i :: 0 <= i < |values| ==> Good(values[i])
    ensures Good(Object(KEY_LISTS[l], values))
  {
    var keys := KEY_LISTS[l];
    ListedOnce(l);
    BindIsGood(keys, values);
    forall k
      ensures HasKey(Bind(keys, values), k) <==> k.StrKey? && k.s in keys
    {
      BindKeys(keys, values, k);
    }
    assert KeysFrom(Bind(keys, values), KEY_LISTS[l]);
  }

  lemma PlainObjectIsGood(l: nat, values: seq<Value>)
    requires l < |KEY_LISTS| && Fills(KEY_LISTS[l], values)
    ensures Good(Object(KEY_LISTS[l], values))
  {
    forall i | 0 <= i < |values|
      ensures Good(values[i])
    {
      LeafIsGood(values[i]);
    }
    ObjectIsGood(l, values);
  }

  lemma RuleIsGood(r: RuleFacts)
    requires Fills(RULE_KEYS[1..], r.rest)
    ensures Good(RuleObject(r))
  {
    hide Good, Object, TextList;
    var first := if r.allowed.Some? then TextList(r.allowed.value) else Null;
    if r.allowed.Some? {
      TextListIsGood(r.allowed.value);
    } else {
      LeafIsGood(Null);
    }
    var values := [first] + r.rest;
    forall i | 0 <= i < |values|
      ensures Good(values[i])
    {
      if i > 0 {
        LeafIsGood(r.rest[i - 1]);
      }
    }
    assert KEY_LISTS[2] == RULE_KEYS;
    ObjectIsGood(2, values);
  }

  lemma ListIsGood(values: seq<Value>)
    requires forall i :: 0 <= i < |values| ==> Good(values[i])
    ensures Good(List(Items(values)))
  {
    hide Good, Items, AllKeyed, AllProper;
    ItemsAreGood(values);
    GoodList(Items(values));
  }

  lemma GoodList(items: Values)
    requires AllKeyed(items) && AllProper(items)
    ensures Good(List(items))
  {
  }

  lemma DecisionIsGood(d: DecisionFacts)
    requires DecisionOk(d)
    ensures Good(DecisionObject(d))
  {
    hide Good, Object, TextList, Items;
    var aggregations := seq(|d.aggregations|, i requires 0 <= i < |d.aggregations| => Object(AGGREGATION_KEYS, d.aggregations[i]));
    var failures := if d.failures == [] then ["NONE"] else d.failures;
    forall i | 0 <= i < |aggregations|
      ensures Good(aggregations[i])
    {
      assert KEY_LISTS[8] == AGGREGATION_KEYS;
      PlainObjectIsGood(8, d.aggregations[i]);
    }
    ListIsGood(aggregations);
    TextListIsGood(d.stages);
    TextListIsGood(failures);
    var values := [List(Items(aggregations)), TextList(d.stages), TextList(failures)] + d.rest;
    forall i | 0 <= i < |values|
      ensures Good(values[i])
    {
      if i >= 3 {
        LeafIsGood(d.rest[i - 3]);
      }
    }
    assert KEY_LISTS[7] == DECISION_KEYS;
    ObjectIsGood(7, values);
  }

  lemma OrStatusIsGood(objects: seq<Value>, status: string)
    requires forall i :: 0 <= i < |objects| ==> Good(objects[i])
    ensures Good(OrStatus(objects, status))
  {
    hide Good, Object;
    if objects == [] {
      assert KEY_LISTS[13] == STATUS_KEYS;
      assert Fills(STATUS_KEYS, [Str(status)]);
      PlainObjectIsGood(13, [Str(status)]);
      ListIsGood([Object(STATUS_KEYS, [Str(status)])]);
    } else {
      ListIsGood(objects);
    }
  }

  lemma MappingsAreGood(f: Facts)
    requires FactsOk(f)
    ensures Good(OrStatus(Mappings(f), "NO_SUPPLIER_MAPPING_INTERNAL_ONLY"))
  {
    hide Good, Object, OrStatus;
    assert KEY_LISTS[3] == MAPPING_KEYS;
    forall i | 0 <= i < |f.suppliers|
      ensures Good(Mappings(f)[i])
    {
      PlainObjectIsGood(3, f.suppliers[i].0);
    }
    OrStatusIsGood(Mappings(f), "NO_SUPPLIER_MAPPING_INTERNAL_ONLY");
  }

  lemma SuppliersAreGood(f: Facts)
    requires FactsOk(f)
    ensures Good(OrStatus(Suppliers(f), "MISSING"))
  {
    hide Good, Object, OrStatus;
    assert KEY_LISTS[4] == SUPPLIER_KEYS;
    forall i | 0 <= i < |f.suppliers|
      ensures Good(Suppliers(f)[i])
    {
      PlainObjectIsGood(4, f.suppliers[i].1);
    }
    OrStatusIsGood(Suppliers(f), "MISSING");
  }

  lemma InternalsAreGood(f: Facts)
    requires FactsOk(f)
    ensures Good(OrStatus(Internals(f), "MISSING"))
  {
    hide Good, Object, OrStatus;
    assert KEY_LISTS[5] == INTERNAL_KEYS;
    forall i | 0 <= i < |f.internals|
      ensures Good(Internals(f)[i])
    {
      PlainObjectIsGood(5, f.internals[i]);
    }
    OrStatusIsGood(Internals(f), "MISSING");
  }

  lemma RowsAreGood(f: Facts)
    requires FactsOk(f)
    ensures Good(List(Items(RuleObjects(f)))) && Good(List(Items(DecisionObjects(f))))
  {
    hide Good, RuleObject, DecisionObject, Items;
    forall i | 0 <= i < |f.rules|
      ensures Good(RuleObjects(f)[i])
    {
      RuleIsGood(f.rules[i]);
    }
    forall i | 0 <= i < |f.decisions|
      ensures Good(DecisionObjects(f)[i])
    {
      DecisionIsGood(f.decisions[i]);
    }
    ListIsGood(RuleObjects(f));
    ListIsGood(DecisionObjects(f));
  }

  lemma PlainPartsAreGood(f: Facts, candidate: string, final: string, reason: string)
    requires FactsOk(f)
    ensures Good(Object(ALLOCATION_KEYS, f.allocation)) && Good(Object(APPROVER_KEYS, [f.actor, Str("LEAD")]))
    ensures Good(Object(REASON_KEYS, Reasons(candidate, final, reason))) && Good(Object(LOT_KEYS, f.lot))
    ensures Good(Object(VERSION_KEYS, f.version)) && Good(Object(CONVERSION_KEYS, Conversions()))
  {
    hide Good, Object;
    assert KEY_LISTS[11] == ALLOCATION_KEYS && KEY_LISTS[9] == APPROVER_KEYS && KEY_LISTS[12] == REASON_KEYS;
    assert KEY_LISTS[10] == LOT_KEYS && KEY_LISTS[1] == VERSION_KEYS && KEY_LISTS[6] == CONVERSION_KEYS;
    PlainObjectIsGood(11, f.allocation);
    PlainObjectIsGood(9, [f.actor, Str("LEAD")]);
    PlainObjectIsGood(12, Reasons(candidate, final, reason));
    PlainObjectIsGood(10, f.lot);
    PlainObjectIsGood(1, f.version);
    PlainObjectIsGood(6, Conversions());
  }

  lemma PayloadIsGood(f: Facts, candidate: string, final: string, reason: string, documents: seq<string>)
    requires FactsOk(f)
    ensures Good(Payload(f, candidate, final, reason, documents))
  {
    hide Good, Object, TextList, OrStatus, FactsOk, Items, Mappings, Suppliers, Internals, RuleObjects, DecisionObjects;
    PlainPartsAreGood(f, candidate, final, reason);
    MappingsAreGood(f);
    SuppliersAreGood(f);
    InternalsAreGood(f);
    RowsAreGood(f);
    TextListIsGood(documents);
    TextListIsGood(f.missing);
    TextListIsGood(f.samples);
    TextListIsGood(f.sources);
    LeafIsGood(Str(candidate));
    LeafIsGood(Str(CONVERSION_VERSION));
    LeafIsGood(Str(ENGINE_VERSION));
    LeafIsGood(Str(POLICY_VERSION));
    LeafIsGood(Str(ROUNDING_VERSION));
    assert KEY_LISTS[0] == SNAPSHOT_KEYS;
    ObjectIsGood(0, Parts(f, candidate, final, reason, documents));
  }

  // ----- freezing the payload ----------------------------------------------------------

  /** Where each required key stands among the payload's. */
  const PLACES: seq<nat> := [17, 16, 9, 18, 6, 19, 7, 15, 10, 11, 4, 5, 12, 13, 2, 1, 14, 8, 0, 3]

  lemma RequiredKeysAreThere(i: nat)
    requires i < |Snapshots.REQUIRED_KEYS|
    ensures PLACES[i] < |SNAPSHOT_KEYS| && SNAPSHOT_KEYS[PLACES[i]] == Snapshots.REQUIRED_KEYS[i]
  {
  }

  lemma ListIsPresent(values: seq<Value>)
    requires values != []
    ensures !Snapshots.IsEmptyValue(List(Items(values)))
  {
  }

  lemma TextListIsPresent(texts: seq<string>)
    requires texts != []
    ensures !Snapshots.IsEmptyValue(TextList(texts))
  {
    ListIsPresent(Texts(texts));
  }

  lemma OrStatusIsPresent(objects: seq<Value>, status: string)
    ensures !Snapshots.IsEmptyValue(OrStatus(objects, status))
  {
    ListIsPresent(if objects == [] then [Object(STATUS_KEYS, [Str(status)])] else objects);
  }

  lemma ObjectIsPresent(keys: seq<string>, values: seq<Value>)
    requires keys != [] && |values| == |keys|
    ensures !Snapshots.IsEmptyValue(Object(keys, values))
  {
  }

  lemma PartsArePresent(f: Facts, candidate: string, final: string, reason: string, documents: seq<string>, j: nat)
    requires FactsOk(f) && documents != [] && Snapshots.IsCandidateDecision(Str(candidate)) && j < |SNAPSHOT_KEYS|
    ensures !Snapshots.IsEmptyValue(Parts(f, candidate, final, reason, documents)[j])
  {
    hide FactsOk, Object, TextList, OrStatus, Items, Snapshots.IsEmptyValue, Mappings, Suppliers, Internals, RuleObjects,
      DecisionObjects;
    FactsHaveRows(f);
    ConstantsArePresent(candidate);
    ObjectIsPresent(ALLOCATION_KEYS, f.allocation);
    ObjectIsPresent(APPROVER_KEYS, [f.actor, Str("LEAD")]);
    ObjectIsPresent(REASON_KEYS, Reasons(candidate, final, reason));
    ObjectIsPresent(LOT_KEYS, f.lot);
    ObjectIsPresent(VERSION_KEYS, f.version);
    ObjectIsPresent(CONVERSION_KEYS, Conversions());
    OrStatusIsPresent(Internals(f), "MISSING");
    OrStatusIsPresent(Mappings(f), "NO_SUPPLIER_MAPPING_INTERNAL_ONLY");
    OrStatusIsPresent(Suppliers(f), "MISSING");
    TextListIsPresent(documents);
    TextListIsPresent(f.missing);
    TextListIsPresent(f.samples);
    TextListIsPresent(f.sources);
    ListIsPresent(DecisionObjects(f));
    ListIsPresent(RuleObjects(f));
  }

  lemma FactsHaveRows(f: Facts)
    requires FactsOk(f)
    ensures f.missing != [] && f.samples != [] && f.sources != [] && DecisionObjects(f) != [] && RuleObjects(f) != []
    ensures |f.allocation| == |ALLOCATION_KEYS| && |f.lot| == |LOT_KEYS| && |f.version| == |VERSION_KEYS|
  {
  }

  lemma ConstantsArePresent(candidate: string)
    requires Snapshots.IsCandidateDecision(Str(candidate))
    ensures !Snapshots.IsEmptyValue(Str(candidate)) && !Snapshots.IsEmptyValue(Str(CONVERSION_VERSION))
    ensures !Snapshots.IsEmptyValue(Str(ENGINE_VERSION)) && !Snapshots.IsEmptyValue(Str(POLICY_VERSION))
    ensures !Snapshots.IsEmptyValue(Str(ROUNDING_VERSION))
  {
    StartsPlainly(candidate);
    StartsPlainly(CONVERSION_VERSION);
    StartsPlainly(ENGINE_VERSION);
    StartsPlainly(POLICY_VERSION);
    StartsPlainly(ROUNDING_VERSION);
  }

  lemma StartsPlainly(s: string)
    requires s != [] && 'A' <= s[0] <= 'Z'
    ensures !Snapshots.IsEmptyValue(Str(s))
  {
    assert !Whitespace.IsSpace(s[0]);
  }

  lemma OverallIsCandidate(f: Facts, candidate: string, final: string, reason: string, documents: seq<string>)
    requires FactsOk(f)
    ensures OverallOf(Payload(f, candidate, final, reason, documents)) == Some(Str(candidate))
  {
    hide FactsOk, Parts;
    assert KEY_LISTS[0] == SNAPSHOT_KEYS;
    ListedOnce(0);
    BindLookup(SNAPSHOT_KEYS, Parts(f, candidate, final, reason, documents), 11);
    OverallPart(f, candidate, final, reason, documents);
  }

  /** The payload is frozen exactly when all its values are canonical: nothing required is ever missing or empty. */
  lemma PayloadFreezesIff(f: Facts, candidate: string, final: string, reason: string, documents: seq<string>,
                          digest: string -> string)
    requires FactsOk(f) && documents != [] && Snapshots.IsCandidateDecision(Str(candidate))
    ensures var payload := Payload(f, candidate, final, reason, documents);
      Snapshots.FreezeForApproval(payload, digest).Ok? <==> Snapshots.Normalise(payload).Some?
  {
    hide FactsOk, Parts, Snapshots.Normalise, Snapshots.IsEmptyValue;
    var payload, parts := Payload(f, candidate, final, reason, documents), Parts(f, candidate, final, reason, documents);
    assert KEY_LISTS[0] == SNAPSHOT_KEYS;
    ListedOnce(0);
    forall i: nat | i < |Snapshots.REQUIRED_KEYS|
      ensures var found := Lookup(payload.entries, StrKey(Snapshots.REQUIRED_KEYS[i]));
        found.Some? && !Snapshots.IsEmptyValue(found.value) && HasKey(payload.entries, StrKey(Snapshots.REQUIRED_KEYS[i]))
    {
      RequiredKeysAreThere(i);
      BindLookup(SNAPSHOT_KEYS, parts, PLACES[i]);
      Snapshots.LookupHasKey(payload.entries, StrKey(Snapshots.REQUIRED_KEYS[i]));
      PartsArePresent(f, candidate, final, reason, documents, PLACES[i]);
    }
    OverallIsCandidate(f, candidate, final, reason, documents);
  }

  lemma OverallPart(f: Facts, candidate: string, final: string, reason: string, documents: seq<string>)
    requires FactsOk(f)
    ensures Parts(f, candidate, final, reason, documents)[11] == Str(candidate)
  {
  }

  // ----- normal forms keep the keys ----------------------------------------------------

  lemma {:induction false} NormaliseKeyed(v: Value)
    requires Keyed(v) && Snapshots.Normalise(v).Some?
    ensures Keyed(Snapshots.Normalise(v).value)
    decreases v, 1
  {
    match v
    case Dict(es) =>
      NormaliseEntriesKeyed(es);
      var l :| 0 <= l < |KEY_LISTS| && KeysFrom(es, KEY_LISTS[l]);
      var n := Snapshots.NormaliseEntries(es).value;
      forall k
        ensures HasKey(n, k) <==> HasKey(es, k)
      {
        Snapshots.NormaliseEntriesLookup(es, k);
      }
      assert KeysFrom(n, KEY_LISTS[l]);
    case List(items) => NormaliseAllKeyed(items);
    case Tuple(items) => NormaliseAllKeyed(items);
    case _ =>
  }

  lemma {:induction false} NormaliseAllKeyed(items: Values)
    requires AllKeyed(items) && Snapshots.NormaliseAll(items).Some?
    ensures AllKeyed(Snapshots.NormaliseAll(items).value)
    decreases items, 0
  {
    if items.Cons? {
      NormaliseKeyed(items.head);
      NormaliseAllKeyed(items.tail);
    }
  }

  lemma {:induction false} NormaliseEntriesKeyed(es: Entries)
    requires EntriesKeyed(es) && Snapshots.NormaliseEntries(es).Some?
    ensures EntriesKeyed(Snapshots.NormaliseEntries(es).value)
    decreases es, 0
  {
    if es.Entry? {
      NormaliseKeyed(es.value);
      NormaliseEntriesKeyed(es.rest);
    }
  }

  lemma {:induction false} InsertKeyed(key: Key, value: Value, es: Entries)
    requires Keyed(value) && EntriesKeyed(es)
    ensures EntriesKeyed(InsertEntry(key, value, es))
  {
    hide Keyed;
    if es.Entry? {
      InsertKeyed(key, value, es.rest);
    }
  }

  lemma {:induction false} SortKeyed(es: Entries)
    requires EntriesKeyed(es)
    ensures EntriesKeyed(SortEntries(es))
  {
    hide Keyed;
    if es.Entry? {
      SortKeyed(es.rest);
      InsertKeyed(es.key, es.value, SortEntries(es.rest));
    }
  }

  lemma {:induction false} CanonKeyed(v: Value)
    requires Keyed(v) && ProperDicts(v)
    ensures Keyed(Canon(v))
    decreases v, 1
  {
    match v
    case Dict(es) =>
      CanonEntriesKeyed(es);
      SortKeyed(CanonEntries(es));
      CanonKeepsDistinct(es);
      var l :| 0 <= l < |KEY_LISTS| && KeysFrom(es, KEY_LISTS[l]);
      var sorted := SortEntries(CanonEntries(es));
      forall k
        ensures HasKey(sorted, k) <==> HasKey(es, k)
      {
        CanonEntriesKeys(es, k);
        SortLookup(CanonEntries(es), k);
      }
      assert KeysFrom(sorted, KEY_LISTS[l]);
    case List(items) => CanonAllKeyed(items);
    case _ =>
  }

  lemma {:induction false} CanonAllKeyed(items: Values)
    requires AllKeyed(items) && AllProper(items)
    ensures AllKeyed(CanonAll(items))
    decreases items, 0
  {
    if items.Cons? {
      CanonKeyed(items.head);
      CanonAllKeyed(items.tail);
    }
  }

  lemma {:induction false} CanonEntriesKeyed(es: Entries)
    requires EntriesKeyed(es) && EntriesProper(es)
    ensures EntriesKeyed(CanonEntries(es))
    decreases es, 0
  {
    if es.Entry? {
      CanonKeyed(es.value);
      CanonEntriesKeyed(es.rest);
    }
  }

  // ----- which collations suit ---------------------------------------------------------

  lemma {:induction false} KeyedAgrees(v: Value, before: Collation)
    requires IsOrder(before) && OrdersKeys(before) && Keyed(v)
    ensures Agrees(v, before)
    decreases v, 1
  {
    match v
    case Dict(es) =>
      var l :| 0 <= l < |KEY_LISTS| && KeysFrom(es, KEY_LISTS[l]);
      ListAgrees(es, l, before);
      EntriesKeyedAgree(es, before);
    case List(items) => AllKeyedAgree(items, before);
    case _ =>
  }

  lemma ListAgrees(es: Entries, l: nat, before: Collation)
    requires IsOrder(before) && OrdersKeys(before) && l < |KEY_LISTS| && KeysFrom(es, KEY_LISTS[l])
    ensures AgreesOn(es, before)
  {
    hide Less, InOrder, IsOrder;
    PlainOrdersAgree();
    forall a, b | HasKey(es, StrKey(a)) && HasKey(es, StrKey(b))
      ensures before(a, b) <==> Less(a, b)
    {
      OrdersAlike(KEY_LISTS[l], before, a, b);
    }
  }

  lemma {:induction false} AllKeyedAgree(items: Values, before: Collation)
    requires IsOrder(before) && OrdersKeys(before) && AllKeyed(items)
    ensures AllAgree(items, before)
    decreases items, 0
  {
    if items.Cons? {
      KeyedAgrees(items.head, before);
      AllKeyedAgree(items.tail, before);
    }
  }

  lemma {:induction false} EntriesKeyedAgree(es: Entries, before: Collation)
    requires IsOrder(before) && OrdersKeys(before) && EntriesKeyed(es)
    ensures EntriesAgree(es, before)
    decreases es, 0
  {
    if es.Entry? {
      KeyedAgrees(es.value, before);
      EntriesKeyedAgree(es.rest, before);
    }
  }

  /** Any collation that puts the payload's keys in code-point order agrees with the domain on the whole frozen tree. */
  lemma PayloadAgrees(f: Facts, candidate: string, final: string, reason: string, documents: seq<string>, before: Collation)
    requires FactsOk(f) && IsOrder(before) && OrdersKeys(before)
    requires Snapshots.Normalise(Payload(f, candidate, final, reason, documents)).Some?
    ensures Agrees(Canon(Snapshots.Normalise(Payload(f, candidate, final, reason, documents)).value), before)
  {
    hide FactsOk, Payload, Keyed, ProperDicts, OrdersKeys, IsOrder, Agrees, Canon, Snapshots.Normalise;
    var payload := Payload(f, candidate, final, reason, documents);
    PayloadIsGood(f, candidate, final, reason, documents);
    var n := Snapshots.Normalise(payload).value;
    NormaliseKeyed(payload);
    Snapshots.NormaliseKeepsProper(payload);
    CanonKeyed(n);
    KeyedAgrees(Canon(n), before);
  }

  /** An order by length first, as binary JSON keeps its keys. */
  predicate ShorterFirst(a: string, b: string) {
    |a| < |b| || (|a| == |b| && Less(a, b))
  }

  lemma ShorterFirstIsOrder()
    ensures IsOrder(ShorterFirst)
  {
    forall a, b
      ensures (a == b || ShorterFirst(a, b) || ShorterFirst(b, a)) && !(ShorterFirst(a, b) && ShorterFirst(b, a))
    {
      LessIsTotal(a, b);
    }
    forall a, b, c | ShorterFirst(a, b) && ShorterFirst(b, c)
      ensures ShorterFirst(a, c)
    {
      if |a| == |b| && |b| == |c| {
        LessTransitive(a, b, c);
      }
    }
  }

  /** Such a collation disagrees on every payload: it puts `mapping` before `approver`. */
  lemma ShorterFirstDisagrees(f: Facts, candidate: string, final: string, reason: string, documents: seq<string>)
    requires FactsOk(f) && Snapshots.Normalise(Payload(f, candidate, final, reason, documents)).Some?
    ensures IsOrder(ShorterFirst)
    ensures !Agrees(Canon(Snapshots.Normalise(Payload(f, candidate, final, reason, documents)).value), ShorterFirst)
  {
    hide FactsOk, Parts, IsOrder, Snapshots.Normalise, Canon;
    var payload, parts := Payload(f, candidate, final, reason, documents), Parts(f, candidate, final, reason, documents);
    ShorterFirstIsOrder();
    PayloadIsGood(f, candidate, final, reason, documents);
    Snapshots.TreeLookup(payload, StrKey("approver"));
    Snapshots.TreeLookup(payload, StrKey("mapping"));
    assert SNAPSHOT_KEYS[1] == "approver" && SNAPSHOT_KEYS[9] == "mapping" && KEY_LISTS[0] == SNAPSHOT_KEYS;
    ListedOnce(0);
    BindLookup(SNAPSHOT_KEYS, parts, 1);
    BindLookup(SNAPSHOT_KEYS, parts, 9);
    var tree := Canon(Snapshots.Normalise(payload).value);
    Snapshots.LookupHasKey(tree.entries, StrKey("approver"));
    Snapshots.LookupHasKey(tree.entries, StrKey("mapping"));
    assert Less("approver", "mapping") && !ShorterFirst("approver", "mapping");
  }
}
