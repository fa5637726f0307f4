/**
 * The CRM's relational store, seen as one immutable snapshot of its four tables, and the
 * queries the server runs against it, each written as its WHERE clause followed by its ORDER BY.
 */
module CrmStore {
  import opened Wrappers
  import opened Sql

  /** A primary or foreign key: a UUID, held as its 128-bit value (the order ORDER BY id uses).
      Every UUID string is non-empty, so Python treats a present id as true. */
  type Id = nat

  /** A NUMERIC or DATE column, held as the exact text Python's str() gives for it. */
  type Text = string

  /** A row of the "debtor" table; timestamps are integers. */
  datatype DebtorRow = DebtorRow(
    id: Id,
    cpf: string,
    phone: string,
    email: string,
    fullName: string,
    birthDate: Option<Text>,
    motherName: Option<string>,
    verified: bool,
    trustLevel: int,
    score: int,
    createdAt: int,
    negotiationStrategyId: Option<Id>)

  /** A row of the "engageable_contract" table. */
  datatype ContractRow = ContractRow(
    id: Id,
    debtorId: Id,
    status: bool,
    age: int,
    totalValue: Option<Text>,
    originalBalance: Option<Text>,
    strategyId: Option<Id>,
    agreementId: Option<Id>,
    createdAt: int)

  /** A row of the "negotiation_strategy" table. */
  datatype StrategyRow = StrategyRow(id: Id, name: string, description: string, createdAt: int)

  /** A row of the "negotiation_rule" table. */
  datatype RuleRow = RuleRow(
    id: Id,
    strategyId: Id,
    minValue: Option<Text>,
    maxValue: Option<Text>,
    maxInstallments: int,
    maxDiscountPercent: int,
    minDownpaymentPercent: int,
    validUntil: int,
    createdAt: int)

  /** The four tables, each in the order a scan without ORDER BY meets its rows. */
  datatype Snapshot = Snapshot(
    debtors: seq<DebtorRow>,
    contracts: seq<ContractRow>,
    strategies: seq<StrategyRow>,
    rules: seq<RuleRow>)

  /** The store's unique constraints on the debtor table: the primary key and the cpf. */
  ghost predicate UniqueDebtorKeys(debtors: seq<DebtorRow>) {
    forall i, j :: 0 <= i < j < |debtors| ==> debtors[i].id != debtors[j].id && debtors[i].cpf != debtors[j].cpf
  }

  /** How many debtor rows carry `cpf`. */
  function CountCpf(debtors: seq<DebtorRow>, cpf: string): nat {
    |Where(debtors, (d: DebtorRow) => d.cpf == cpf)|
  }

  /** `SELECT ... FROM debtor WHERE cpf = %s` followed by fetchone(): the first row the scan meets. */
  function DebtorByCpf(debtors: seq<DebtorRow>, cpf: string): (r: Option<DebtorRow>)
    ensures r.None? <==> forall d :: d in debtors ==> d.cpf != cpf
    ensures r.Some? ==> r.value in debtors && r.value.cpf == cpf
  {
    if debtors == [] then None
    else if debtors[0].cpf == cpf then Some(debtors[0])
    else DebtorByCpf(debtors[1..], cpf)
  }

  /** With the cpf unique, fetchone() finds exactly the row that carries it, whatever the scan order. */
  lemma {:induction false} DebtorByCpfUnique(debtors: seq<DebtorRow>, k: nat)
    requires UniqueDebtorKeys(debtors)
    requires k < |debtors|
    ensures DebtorByCpf(debtors, debtors[k].cpf) == Some(debtors[k])
  {
    if k > 0 {
      assert debtors[0].cpf != debtors[k].cpf;
      assert debtors[1..][k - 1] == debtors[k];
      DebtorByCpfUnique(debtors[1..], k - 1);
    }
  }

  /** `SELECT ... FROM negotiation_strategy WHERE id = %s` followed by fetchone(). */
  function StrategyById(strategies: seq<StrategyRow>, id: Id): (r: Option<StrategyRow>)
    ensures r.None? <==> forall s :: s in strategies ==> s.id != id
    ensures r.Some? ==> r.value in strategies && r.value.id == id
  {
    if strategies == [] then None
    else if strategies[0].id == id then Some(strategies[0])
    else StrategyById(strategies[1..], id)
  }

  /** The WHERE clause of the contract query: the debtor's contracts, active and with no agreement. */
  predicate IsEngageable(c: ContractRow, debtorId: Id) {
    c.debtorId == debtorId && c.status && c.agreementId.None?
  }

  /** The key of ORDER BY created_at DESC. */
  function NewestFirst(c: ContractRow): int {
    -c.createdAt
  }

  /** The key of ORDER BY created_at ASC. */
  function OldestFirst(r: RuleRow): int {
    r.createdAt
  }

  /** The key of ORDER BY id. */
  function ByDebtorId(d: DebtorRow): int {
    d.id
  }

  /** The contract query of the negotiation resolver: every engageable contract of the debtor,
      each once per row, most recent first. */
  function EngageableRows(contracts: seq<ContractRow>, debtorId: Id): (r: seq<ContractRow>)
    ensures forall c :: multiset(r)[c] == if IsEngageable(c, debtorId) then multiset(contracts)[c] else 0
    ensures forall i, j :: 0 <= i < j < |r| ==> r[i].createdAt >= r[j].createdAt
  {
    var rows := SortByKey(Where(contracts, (c: ContractRow) => IsEngageable(c, debtorId)), NewestFirst);
    assert forall i, j :: 0 <= i < j < |rows| ==> NewestFirst(rows[i]) <= NewestFirst(rows[j]);
    rows
  }

  /** The rule query: every rule of the strategy, each once per row, oldest first. */
  function RulesOf(rules: seq<RuleRow>, strategyId: Id): (r: seq<RuleRow>)
    ensures forall x :: multiset(r)[x] == if x.strategyId == strategyId then multiset(rules)[x] else 0
    ensures forall i, j :: 0 <= i < j < |r| ==> r[i].createdAt <= r[j].createdAt
  {
    var rows := SortByKey(Where(rules, (x: RuleRow) => x.strategyId == strategyId), OldestFirst);
    assert forall i, j :: 0 <= i < j < |rows| ==> OldestFirst(rows[i]) <= OldestFirst(rows[j]);
    rows
  }

  /** The listing query's ORDER BY id over the whole debtor table. */
  function DebtorsById(debtors: seq<DebtorRow>): (r: seq<DebtorRow>)
    ensures multiset(r) == multiset(debtors) && |r| == |debtors|
    ensures forall i, j :: 0 <= i < j < |r| ==> r[i].id <= r[j].id
  {
    var rows := SortByKey(debtors, ByDebtorId);
    assert |multiset(rows)| == |rows|;
    assert forall i, j :: 0 <= i < j < |rows| ==> ByDebtorId(rows[i]) <= ByDebtorId(rows[j]);
    rows
  }

  /** A contract that is closed, settled or another debtor's is never among the engageable rows. */
  lemma ClosedContractNeverEngageable(contracts: seq<ContractRow>, debtorId: Id, c: ContractRow)
    requires !c.status || c.agreementId.Some? || c.debtorId != debtorId
    ensures c !in EngageableRows(contracts, debtorId)
  {
    assert multiset(EngageableRows(contracts, debtorId))[c] == 0;
  }
}
