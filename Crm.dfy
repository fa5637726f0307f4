/**
 * The CRM access functions of the MCP server: inserting a debtor, fetching one by cpf, and
 * listing a page of debtors. Each works on a snapshot of the store; a statement the store
 * rejects is an `Err` carrying the exception it raises.
 */
module Crm {
  import opened Wrappers
  import opened Sql
  import opened CrmStore

  /** An exception insert_debtor raises: an IntegrityError from the driver, or any other exception
      (another driver error, or the ValueError of a missing connection setting) with its message. */
  datatype DbError = IntegrityError(message: string) | DatabaseError(message: string)

  /** The dict fetch_debtor_by_cpf and fetch_debtors build: id, mother_name, verified,
      trust_level, score and created_at are left out of it. */
  datatype DebtorView = DebtorView(cpf: string, phone: string, email: string, fullName: string, birthDate: Option<Text>)

  /** The dict insert_debtor returns: every column the INSERT ... RETURNING clause names. */
  datatype DebtorRecord = DebtorRecord(
    id: Id,
    cpf: string,
    phone: string,
    email: string,
    fullName: string,
    birthDate: Option<Text>,
    motherName: Option<string>,
    verified: bool,
    trustLevel: int,
    score: int,
    createdAt: Option<int>)

  /** The arguments of insert_debtor. */
  datatype NewDebtor = NewDebtor(
    cpf: string,
    phone: string,
    email: string,
    fullName: string,
    birthDate: Text,
    motherName: Option<string> := None)

  /** The column values the store fills in on insert. */
  datatype ColumnDefaults = ColumnDefaults(verified: bool, trustLevel: int, createdAt: int)

  /** What the store does with the INSERT: it stores the row, filling in its defaults, or raises. */
  datatype InsertOutcome = Stored(defaults: ColumnDefaults) | Rejected(error: DbError)

  function ViewOf(d: DebtorRow): DebtorView {
    DebtorView(d.cpf, d.phone, d.email, d.fullName, d.birthDate)
  }

  // ---------------------------------------------------------------------------------------------
  // fetch_debtor_by_cpf
  // ---------------------------------------------------------------------------------------------

  /** None exactly when no row carries the cpf; otherwise the five public fields of such a row. */
  function FetchDebtorByCpf(db: Snapshot, cpf: string): (r: Option<DebtorView>)
    ensures r.None? <==> forall d :: d in db.debtors ==> d.cpf != cpf
    ensures r.Some? ==> r.value.cpf == cpf
    ensures r.Some? ==> exists d :: d in db.debtors && d.cpf == cpf && r.value == ViewOf(d)
  {
    match DebtorByCpf(db.debtors, cpf)
    case None => None
    case Some(d) => Some(ViewOf(d))
  }

  // ---------------------------------------------------------------------------------------------
  // fetch_debtors
  // ---------------------------------------------------------------------------------------------

  /** The most rows one page may hold. */
  const MaxPageSize := 25

  /** min(page_size, 25): never above 25, and the requested size whenever that is not; no lower clamp. */
  function EffectivePageSize(pageSize: int): (s: int)
    ensures s <= MaxPageSize && s <= pageSize
    ensures s == pageSize || s == MaxPageSize
  {
    if pageSize < MaxPageSize then pageSize else MaxPageSize
  }

  /** (page - 1) * size: page 1 starts at offset 0 and each later page one size further on. */
  function PageOffset(page: int, size: int): (offset: int)
    ensures page == 1 ==> offset == 0
    ensures page >= 1 && size >= 0 ==> offset >= 0
    ensures page < 1 && size > 0 ==> offset < 0
    ensures size == 0 ==> offset == 0
  {
    (page - 1) * size
  }

  /** The range of PostgreSQL's bigint, the type LIMIT and OFFSET are converted to. */
  const MinBigint := -0x8000_0000_0000_0000
  const MaxBigint := 0x7FFF_FFFF_FFFF_FFFF

  /** The rows of one page, ordered by id. PostgreSQL first converts OFFSET and then LIMIT to a
      bigint, failing when one does not fit, and then rejects a negative OFFSET and then a negative
      LIMIT; otherwise the page is the id-ordered table from the offset on, cut to the size. */
  function FetchDebtors(db: Snapshot, page: int := 1, pageSize: int := 10): (r: Result<seq<DebtorView>, DbError>)
    ensures var size := EffectivePageSize(pageSize);
            var offset := PageOffset(page, size);
            && (r.Err? <==> size < 0 || offset < 0 || offset > MaxBigint)
            && (r.Err? && (offset > MaxBigint || offset < MinBigint || size < MinBigint) ==>
                  r.error == DatabaseError("bigint out of range"))
            && (r.Err? && MinBigint <= offset <= MaxBigint && MinBigint <= size ==>
                  r.error == DatabaseError(if offset < 0 then "OFFSET must not be negative"
                                           else "LIMIT must not be negative"))
    ensures r.Ok? ==> |r.value| <= EffectivePageSize(pageSize) <= MaxPageSize
    ensures r.Ok? ==>
              var rows, size := DebtorsById(db.debtors), EffectivePageSize(pageSize);
              var offset := PageOffset(page, size);
              |r.value| == if |rows| <= offset then 0 else if offset + size <= |rows| then size else |rows| - offset
    ensures r.Ok? ==>
              var rows, offset := DebtorsById(db.debtors), PageOffset(page, EffectivePageSize(pageSize));
              forall k :: 0 <= k < |r.value| ==> offset + k < |rows| && r.value[k] == ViewOf(rows[offset + k])
  {
    var size := EffectivePageSize(pageSize);
    var offset := PageOffset(page, size);
    if offset < MinBigint || offset > MaxBigint || size < MinBigint then Err(DatabaseError("bigint out of range"))
    else if offset < 0 then Err(DatabaseError("OFFSET must not be negative"))
    else if size < 0 then Err(DatabaseError("LIMIT must not be negative"))
    else
      var rows := Window(DebtorsById(db.debtors), size, offset);
      Ok(seq(|rows|, k requires 0 <= k < |rows| => ViewOf(rows[k])))
  }

  /** A page number so large that its offset passes the bigint range is an error, not a page. */
  lemma HugeOffsetRejected(db: Snapshot)
    ensures FetchDebtors(db, 461168601842738791, 25) == Err(DatabaseError("bigint out of range"))
  {
    assert PageOffset(461168601842738791, 25) == 11529215046068469750;
  }

  /** Called with no arguments (page 1, page size 10), the listing is the first ten debtors in id
      order, or all of them when there are fewer. */
  lemma DefaultListing(db: Snapshot)
    ensures var r, rows := FetchDebtors(db), DebtorsById(db.debtors);
            && r.Ok? && |r.value| == (if |rows| < 10 then |rows| else 10)
            && forall k :: 0 <= k < |r.value| ==> r.value[k] == ViewOf(rows[k])
  {
    assert EffectivePageSize(10) == 10 && PageOffset(1, 10) == 0;
  }

  /** The second page of ten holds the 11th to the 20th debtor in id order. */
  lemma SecondPageOfTen(db: Snapshot)
    requires |db.debtors| >= 20
    ensures var r := FetchDebtors(db, 2, 10);
            r.Ok? && |r.value| == 10 &&
            forall k :: 0 <= k < 10 ==> r.value[k] == ViewOf(DebtorsById(db.debtors)[10 + k])
  {
    assert EffectivePageSize(10) == 10;
    assert PageOffset(2, 10) == 10;
    assert |Window(DebtorsById(db.debtors), 10, 10)| == 10;
  }

  /** Whatever page size is asked for, a page holds at most 25 rows. */
  lemma PageNeverAboveMax(db: Snapshot, page: int, pageSize: int)
    ensures FetchDebtors(db, page, pageSize).Ok? ==> |FetchDebtors(db, page, pageSize).value| <= MaxPageSize
  {
  }

  // ---------------------------------------------------------------------------------------------
  // insert_debtor
  // ---------------------------------------------------------------------------------------------

  /** The row insert_debtor sends: the fresh id, the arguments, a score of 0 and the store's defaults. */
  function NewRow(id: Id, d: NewDebtor, defaults: ColumnDefaults): DebtorRow {
    DebtorRow(id, d.cpf, d.phone, d.email, d.fullName, Some(d.birthDate), d.motherName,
              defaults.verified, defaults.trustLevel, 0, defaults.createdAt, None)
  }

  /** The dict built from the RETURNING row. */
  function RecordOf(row: DebtorRow): DebtorRecord {
    DebtorRecord(row.id, row.cpf, row.phone, row.email, row.fullName, row.birthDate, row.motherName,
                 row.verified, row.trustLevel, row.score, Some(row.createdAt))
  }

  /** INSERT with a freshly generated id: on success the store gains exactly that row and the
      record returned carries the id, score 0 and the arguments; on failure nothing is stored. */
  function InsertDebtor(db: Snapshot, id: Id, d: NewDebtor, outcome: InsertOutcome): (r: Result<(Snapshot, DebtorRecord), DbError>)
    ensures r.Err? <==> outcome.Rejected?
    ensures r.Err? ==> r.error == outcome.error
    ensures r.Ok? ==>
              var (db', rec) := r.value;
              && rec.id == id && rec.score == 0
              && rec.cpf == d.cpf && rec.phone == d.phone && rec.email == d.email
              && rec.fullName == d.fullName && rec.birthDate == Some(d.birthDate) && rec.motherName == d.motherName
              && db'.debtors == db.debtors + [NewRow(id, d, outcome.defaults)]
              && db'.contracts == db.contracts && db'.strategies == db.strategies && db'.rules == db.rules
  {
    match outcome
    case Rejected(e) => Err(e)
    case Stored(defaults) =>
      var row := NewRow(id, d, defaults);
      Ok((db.(debtors := db.debtors + [row]), RecordOf(row)))
  }

  /** Without a mother_name argument the row and the record carry no mother name. */
  lemma InsertWithoutMotherName(db: Snapshot, id: Id, cpf: string, phone: string, email: string,
                                fullName: string, birthDate: Text, defaults: ColumnDefaults)
    ensures var r := InsertDebtor(db, id, NewDebtor(cpf, phone, email, fullName, birthDate), Stored(defaults));
            r.Ok? && r.value.1.motherName == None && r.value.0.debtors[|db.debtors|].motherName == None
  {
  }

  /** The store keeps its unique constraints: it stores a row only when its id and cpf are new,
      and answers a taken cpf or id with an IntegrityError. */
  ghost predicate ConsistentOutcome(db: Snapshot, id: Id, d: NewDebtor, outcome: InsertOutcome) {
    var taken := (exists x :: x in db.debtors && (x.cpf == d.cpf || x.id == id));
    (outcome.Stored? ==> !taken) && (taken ==> outcome.Rejected? && outcome.error.IntegrityError?)
  }

  /** An accepted insert keeps the debtor table's keys unique, and the new cpf then has one row. */
  lemma {:induction false} InsertKeepsKeysUnique(db: Snapshot, id: Id, d: NewDebtor, outcome: InsertOutcome)
    requires UniqueDebtorKeys(db.debtors)
    requires ConsistentOutcome(db, id, d, outcome)
    requires InsertDebtor(db, id, d, outcome).Ok?
    ensures UniqueDebtorKeys(InsertDebtor(db, id, d, outcome).value.0.debtors)
    ensures CountCpf(InsertDebtor(db, id, d, outcome).value.0.debtors, d.cpf) == 1
  {
    var debtors' := InsertDebtor(db, id, d, outcome).value.0.debtors;
    var n := |db.debtors|;
    forall i, j | 0 <= i < j < |debtors'|
      ensures debtors'[i].id != debtors'[j].id && debtors'[i].cpf != debtors'[j].cpf
    {
      if j == n {
        assert debtors'[i] in db.debtors;
      }
    }
    var matching := Where(debtors', (x: DebtorRow) => x.cpf == d.cpf);
    forall x | x in db.debtors
      ensures multiset(matching)[x] == 0
    {
    }
    assert multiset(matching)[debtors'[n]] == 1 by {
      assert debtors'[n] !in db.debtors;
      assert multiset(debtors')[debtors'[n]] == multiset(db.debtors)[debtors'[n]] + 1;
    }
    MatchingRowsAreOne(debtors', d.cpf, matching, debtors'[n]);
  }

  /** A filter result whose only row type is one row, present once, has length one. */
  lemma MatchingRowsAreOne(debtors: seq<DebtorRow>, cpf: string, matching: seq<DebtorRow>, x: DebtorRow)
    requires matching == Where(debtors, (y: DebtorRow) => y.cpf == cpf)
    requires multiset(matching)[x] == 1
    requires forall y :: y in matching ==> y == x
    ensures |matching| == 1
  {
    assert multiset(matching) == multiset{x} by {
      forall y ensures multiset(matching)[y] == multiset{x}[y] {
        if y != x { assert y !in matching; }
      }
    }
    assert |multiset(matching)| == 1;
  }
}
