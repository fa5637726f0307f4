/**
 * The negotiation resolver (fech_negotiation): for a cpf it gathers the debtor, the debtor's
 * engageable contracts and the rules of one negotiation strategy those contracts reference.
 *
 * The debtor dict the resolver builds has no "negotiation_strategy_id" key, so the lookup of the
 * debtor's own strategy always yields None: the strategy is always one referenced by the contracts.
 */
module Negotiation {
  import opened Wrappers
  import opened Sql
  import opened CrmStore

  /** The debtor dict of the result: cpf, phone, email and full_name only. */
  datatype DebtorSummary = DebtorSummary(cpf: string, phone: string, email: string, fullName: string)

  /** One entry of "engageable_contracts". */
  datatype ContractView = ContractView(age: int, totalValue: Option<Text>, originalBalance: Option<Text>)

  /** One entry of "negotiation_rules". */
  datatype RuleView = RuleView(
    minValue: Option<Text>,
    maxValue: Option<Text>,
    maxInstallments: int,
    maxDiscountPercent: int,
    minDownpaymentPercent: int)

  /** The result dict: exactly the keys debtor, engageable_contracts and negotiation_rules. */
  datatype NegotiationResult = NegotiationResult(
    debtor: DebtorSummary,
    engageableContracts: seq<ContractView>,
    negotiationRules: seq<RuleView>)

  function SummaryOf(d: DebtorRow): DebtorSummary {
    DebtorSummary(d.cpf, d.phone, d.email, d.fullName)
  }

  function ContractViewOf(c: ContractRow): ContractView {
    ContractView(c.age, c.totalValue, c.originalBalance)
  }

  function RuleViewOf(r: RuleRow): RuleView {
    RuleView(r.minValue, r.maxValue, r.maxInstallments, r.maxDiscountPercent, r.minDownpaymentPercent)
  }

  function ContractViews(rows: seq<ContractRow>): seq<ContractView> {
    seq(|rows|, k requires 0 <= k < |rows| => ContractViewOf(rows[k]))
  }

  function RuleViews(rows: seq<RuleRow>): seq<RuleView> {
    seq(|rows|, k requires 0 <= k < |rows| => RuleViewOf(rows[k]))
  }

  /** The strategy ids the contracts reference; a null strategy_id is skipped. */
  function StrategyIdsOf(rows: seq<ContractRow>): set<Id> {
    set c | c in rows && c.strategyId.Some? :: c.strategyId.value
  }

  /** The choice `next(iter(strategy_ids))` may make: nothing when no strategy is referenced,
      otherwise one of the referenced strategies (which one is left to the set's iteration order). */
  predicate ValidSelection(ids: set<Id>, selected: Option<Id>) {
    if ids == {} then selected.None? else selected.Some? && selected.value in ids
  }

  /** The rule list for a selection: empty unless a strategy was selected and its row exists. */
  function RulesFor(db: Snapshot, selected: Option<Id>): seq<RuleView> {
    match selected
    case None => []
    case Some(s) => if StrategyById(db.strategies, s).Some? then RuleViews(RulesOf(db.rules, s)) else []
  }

  /** The result the resolver assembles for debtor `d` once `selected` is chosen. */
  function Resolved(db: Snapshot, d: DebtorRow, selected: Option<Id>): NegotiationResult {
    NegotiationResult(SummaryOf(d), ContractViews(EngageableRows(db.contracts, d.id)), RulesFor(db, selected))
  }

  /** The results the resolver may return for `cpf`: None when no debtor carries it, otherwise the
      assembly for some valid selection among the strategies its engageable contracts reference. */
  ghost predicate IsResolution(db: Snapshot, cpf: string, r: Option<NegotiationResult>) {
    match DebtorByCpf(db.debtors, cpf)
    case None => r.None?
    case Some(d) =>
      exists selected :: ValidSelection(StrategyIdsOf(EngageableRows(db.contracts, d.id)), selected)
                         && r == Some(Resolved(db, d, selected))
  }

  /** The loop over the contract rows: one entry per row, in row order, and the set of the
      strategy ids the rows reference. */
  method ProjectContracts(rows: seq<ContractRow>) returns (contracts: seq<ContractView>, strategyIds: set<Id>)
    ensures |contracts| == |rows|
    ensures forall k :: 0 <= k < |rows| ==> contracts[k] == ContractViewOf(rows[k])
    ensures forall id :: id in strategyIds <==> exists c :: c in rows && c.strategyId == Some(id)
  {
    contracts, strategyIds := [], {};
    for i := 0 to |rows|
      invariant |contracts| == i
      invariant forall k :: 0 <= k < i ==> contracts[k] == ContractViewOf(rows[k])
      invariant forall id :: id in strategyIds <==> exists k :: 0 <= k < i && rows[k].strategyId == Some(id)
    {
      contracts := contracts + [ContractViewOf(rows[i])];
      if rows[i].strategyId.Some? {
        strategyIds := strategyIds + {rows[i].strategyId.value};
      }
    }
  }

  /** The loop over the rule rows: one entry per row, in row order. */
  method ProjectRules(ruleRows: seq<RuleRow>) returns (rules: seq<RuleView>)
    ensures |rules| == |ruleRows|
    ensures forall k :: 0 <= k < |ruleRows| ==> rules[k] == RuleViewOf(ruleRows[k])
  {
    rules := [];
    for i := 0 to |ruleRows|
      invariant |rules| == i
      invariant forall k :: 0 <= k < i ==> rules[k] == RuleViewOf(ruleRows[k])
    {
      rules := rules + [RuleViewOf(ruleRows[i])];
    }
  }

  /** fech_negotiation, step by step: look the debtor up, project its engageable contracts while
      collecting their strategy ids, pick a strategy, and list that strategy's rules. */
  method FetchNegotiation(db: Snapshot, cpf: string) returns (r: Option<NegotiationResult>, ghost selected: Option<Id>)
    ensures r.None? <==> DebtorByCpf(db.debtors, cpf).None?
    ensures r.Some? ==>
              var d := DebtorByCpf(db.debtors, cpf).value;
              && ValidSelection(StrategyIdsOf(EngageableRows(db.contracts, d.id)), selected)
              && r.value == Resolved(db, d, selected)
  {
    selected := None;
    var debtorRow := DebtorByCpf(db.debtors, cpf);
    if debtorRow.None? {
      return None, None;
    }
    var d := debtorRow.value;
    var debtor := SummaryOf(d);

    var rows := EngageableRows(db.contracts, d.id);
    var contracts, strategyIds := ProjectContracts(rows);
    assert contracts == ContractViews(rows);
    assert strategyIds == StrategyIdsOf(rows);

    // The debtor dict has no strategy key, so the debtor's own strategy is never the one used.
    var selectedId: Option<Id> := None;
    if selectedId.None? && strategyIds != {} {
      var s :| s in strategyIds;
      selectedId := Some(s);
    }
    selected := selectedId;

    var rules: seq<RuleView> := [];
    if selectedId.Some? {
      var strategy := StrategyById(db.strategies, selectedId.value);
      if strategy.Some? {
        var ruleRows := RulesOf(db.rules, selectedId.value);
        rules := ProjectRules(ruleRows);
        assert rules == RuleViews(ruleRows);
      }
    }
    r := Some(NegotiationResult(debtor, contracts, rules));
  }

  /** Every result the method returns is one the specification allows. */
  lemma FetchNegotiationIsResolution(db: Snapshot, cpf: string, r: Option<NegotiationResult>, selected: Option<Id>)
    requires r.None? <==> DebtorByCpf(db.debtors, cpf).None?
    requires r.Some? ==>
               var d := DebtorByCpf(db.debtors, cpf).value;
               ValidSelection(StrategyIdsOf(EngageableRows(db.contracts, d.id)), selected)
               && r.value == Resolved(db, d, selected)
    ensures IsResolution(db, cpf, r)
  {
  }

  // ---------------------------------------------------------------------------------------------
  // Properties of the resolution
  // ---------------------------------------------------------------------------------------------

  /** A debtor is found exactly when some row carries the cpf, and the summary returned carries it. */
  lemma {:induction false} ResolutionMatchesCpf(db: Snapshot, cpf: string, r: Option<NegotiationResult>)
    requires IsResolution(db, cpf, r)
    ensures r.None? <==> forall d :: d in db.debtors ==> d.cpf != cpf
    ensures r.Some? ==> r.value.debtor.cpf == cpf
  {
    match DebtorByCpf(db.debtors, cpf)
    case None =>
    case Some(d) =>
      var selected :| ValidSelection(StrategyIdsOf(EngageableRows(db.contracts, d.id)), selected)
                      && r == Some(Resolved(db, d, selected));
  }

  /** The contract entries are the engageable contracts, one per row, most recent first; the
      strategy chosen is one of theirs, and none is chosen exactly when none of them has one. */
  lemma {:induction false} ContractsAndSelection(db: Snapshot, d: DebtorRow, selected: Option<Id>)
    requires ValidSelection(StrategyIdsOf(EngageableRows(db.contracts, d.id)), selected)
    ensures var rows := EngageableRows(db.contracts, d.id);
            var entries := Resolved(db, d, selected).engageableContracts;
            && |entries| == |rows|
            && (forall k :: 0 <= k < |rows| ==> IsEngageable(rows[k], d.id) && entries[k] == ContractViewOf(rows[k]))
            && (forall i, j :: 0 <= i < j < |rows| ==> rows[i].createdAt >= rows[j].createdAt)
            && (selected.None? <==> forall c :: c in rows ==> c.strategyId.None?)
            && (selected.Some? ==> exists c :: c in rows && c.strategyId == selected)
  {
    EveryRowEngageable(db.contracts, d.id);
    SelectionAmongRows(EngageableRows(db.contracts, d.id), selected);
  }

  /** A valid pick is None exactly when no row references a strategy, and otherwise one a row references. */
  lemma SelectionAmongRows(rows: seq<ContractRow>, selected: Option<Id>)
    requires ValidSelection(StrategyIdsOf(rows), selected)
    ensures selected.None? <==> forall c :: c in rows ==> c.strategyId.None?
    ensures selected.Some? ==> exists c :: c in rows && c.strategyId == selected
  {
    if selected.None? {
      forall c | c in rows && c.strategyId.Some?
        ensures c.strategyId.value in StrategyIdsOf(rows)
      {
      }
    } else {
      var c :| c in rows && c.strategyId.Some? && c.strategyId.value == selected.value;
    }
  }

  /** Every row the contract query returns passes its WHERE clause. */
  lemma EveryRowEngageable(contracts: seq<ContractRow>, debtorId: Id)
    ensures var rows := EngageableRows(contracts, debtorId);
            forall k :: 0 <= k < |rows| ==> IsEngageable(rows[k], debtorId)
  {
    var rows := EngageableRows(contracts, debtorId);
    forall k | 0 <= k < |rows|
      ensures IsEngageable(rows[k], debtorId)
    {
      assert multiset(rows)[rows[k]] > 0;
    }
  }

  /** With a strategy selected and present, the rules are every rule of that strategy, one entry per
      rule row, ordered by created_at ascending; in every other case the list is empty. */
  lemma {:induction false} RulesOfSelection(db: Snapshot, selected: Option<Id>)
    ensures selected.None? || StrategyById(db.strategies, selected.value).None? ==> RulesFor(db, selected) == []
    ensures selected.Some? && StrategyById(db.strategies, selected.value).Some? ==>
              var rows := RulesOf(db.rules, selected.value);
              && |RulesFor(db, selected)| == |rows|
              && (forall k :: 0 <= k < |rows| ==> RulesFor(db, selected)[k] == RuleViewOf(rows[k]))
              && (forall x :: multiset(rows)[x] == if x.strategyId == selected.value then multiset(db.rules)[x] else 0)
              && (forall i, j :: 0 <= i < j < |rows| ==> rows[i].createdAt <= rows[j].createdAt)
  {
  }

  /** A debtor with no engageable contract gets empty contract and rule lists. */
  lemma {:induction false} NoOpenContractsNoRules(db: Snapshot, d: DebtorRow, selected: Option<Id>)
    requires forall c :: c in db.contracts ==> !IsEngageable(c, d.id)
    requires ValidSelection(StrategyIdsOf(EngageableRows(db.contracts, d.id)), selected)
    ensures Resolved(db, d, selected).engageableContracts == []
    ensures Resolved(db, d, selected).negotiationRules == []
  {
    var rows := EngageableRows(db.contracts, d.id);
    assert forall c :: c in rows ==> multiset(rows)[c] > 0;
  }

  /** The debtor's own negotiation_strategy_id plays no part: changing it changes no possible result. */
  lemma {:induction false} OwnStrategyNeverConsulted(db: Snapshot, k: nat, own: Option<Id>, cpf: string, r: Option<NegotiationResult>)
    requires k < |db.debtors|
    ensures var db' := db.(debtors := db.debtors[k := db.debtors[k].(negotiationStrategyId := own)]);
            IsResolution(db, cpf, r) <==> IsResolution(db', cpf, r)
  {
    var db' := db.(debtors := db.debtors[k := db.debtors[k].(negotiationStrategyId := own)]);
    SameLookupUpToStrategy(db.debtors, k, own, cpf);
  }

  /** Looking a cpf up in a table where one row's strategy was changed finds the same row, up to that field. */
  lemma {:induction false} SameLookupUpToStrategy(debtors: seq<DebtorRow>, k: nat, own: Option<Id>, cpf: string)
    requires k < |debtors|
    ensures var a, b := DebtorByCpf(debtors, cpf), DebtorByCpf(debtors[k := debtors[k].(negotiationStrategyId := own)], cpf);
            a.None? == b.None? && (a.Some? ==> b.value == a.value.(negotiationStrategyId := b.value.negotiationStrategyId))
  {
    var debtors' := debtors[k := debtors[k].(negotiationStrategyId := own)];
    if k > 0 && debtors[0].cpf != cpf {
      assert debtors'[1..] == debtors[1..][k - 1 := debtors[k].(negotiationStrategyId := own)];
      SameLookupUpToStrategy(debtors[1..], k - 1, own, cpf);
    } else if k == 0 && debtors[0].cpf != cpf {
      assert debtors'[1..] == debtors[1..];
    }
  }

  /** Whatever the debtor's own negotiation_strategy_id holds, even another strategy, a debtor whose
      engageable contracts all reference strategy `b`, which exists, gets exactly the rules of `b`. */
  lemma {:induction false} ContractStrategyWinsOverOwn(db: Snapshot, cpf: string, d: DebtorRow, b: Id, r: Option<NegotiationResult>)
    requires DebtorByCpf(db.debtors, cpf) == Some(d)
    requires EngageableRows(db.contracts, d.id) != []
    requires forall c :: c in EngageableRows(db.contracts, d.id) ==> c.strategyId == Some(b)
    requires StrategyById(db.strategies, b).Some?
    requires IsResolution(db, cpf, r)
    ensures r.Some? && r.value.negotiationRules == RuleViews(RulesOf(db.rules, b))
  {
    var rows := EngageableRows(db.contracts, d.id);
    var selected :| ValidSelection(StrategyIdsOf(rows), selected) && r == Some(Resolved(db, d, selected));
    SingleStrategyIsDeterministic(rows, b, selected);
  }

  /** When every engageable contract references the same strategy, the arbitrary pick has only one
      outcome: the resolver is deterministic for such a debtor. */
  lemma {:induction false} SingleStrategyIsDeterministic(rows: seq<ContractRow>, s: Id, selected: Option<Id>)
    requires rows != [] && forall c :: c in rows ==> c.strategyId == Some(s)
    ensures ValidSelection(StrategyIdsOf(rows), selected) <==> selected == Some(s)
  {
    assert rows[0] in rows;
    assert StrategyIdsOf(rows) == {s};
  }
}
