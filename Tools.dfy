/**
 * The MCP tools over the CRM functions: each returns either the value the function produced or
 * an object whose only field is "error". The JSON encoding itself is not modelled: a reply is
 * the value json.dumps is given.
 */
module Tools {
  import opened Wrappers
  import opened CrmStore
  import opened Crm
  import opened Negotiation

  /** What a tool hands to json.dumps: a value, or an object with the single key "error". */
  datatype Reply<+T> = Payload(value: T) | ErrorPayload(error: string)

  const DebtorNotFound := "Debtor not found"
  const InsertFailedPrefix := "Could not insert debtor: "

  /** debtor-get: the debtor's public fields, or "Debtor not found" exactly when no row has the cpf. */
  function GetDebtorByCpfTool(db: Snapshot, cpf: string): (r: Reply<DebtorView>)
    ensures r.ErrorPayload? <==> forall d :: d in db.debtors ==> d.cpf != cpf
    ensures r.ErrorPayload? ==> r.error == DebtorNotFound
    ensures r.Payload? ==> r.value.cpf == cpf && FetchDebtorByCpf(db, cpf) == Some(r.value)
  {
    // A found debtor is a dict with five keys, never falsy: only None takes the error branch.
    var debtor := FetchDebtorByCpf(db, cpf);
    if debtor.None? then ErrorPayload(DebtorNotFound) else Payload(debtor.value)
  }

  /** The store after a tool call, and the tool's reply. */
  datatype Call<+T> = Call(store: Snapshot, reply: Reply<T>)

  /** debtor-add: every exception of insert_debtor is caught. An IntegrityError becomes
      "Could not insert debtor: " and its message, any other error its message alone; a failed
      insert leaves the store as it was. */
  function AddDebtorTool(db: Snapshot, id: Id, d: NewDebtor, outcome: InsertOutcome): (r: Call<DebtorRecord>)
    ensures r.reply.ErrorPayload? <==> outcome.Rejected?
    ensures outcome.Rejected? ==> r.store == db
    ensures outcome.Rejected? && outcome.error.IntegrityError? ==>
              r.reply.error == InsertFailedPrefix + outcome.error.message
    ensures outcome.Rejected? && outcome.error.DatabaseError? ==> r.reply.error == outcome.error.message
    ensures r.reply.Payload? ==>
              && r.reply.value == RecordOf(NewRow(id, d, outcome.defaults))
              && r.reply.value.id == id && r.reply.value.score == 0 && r.reply.value.cpf == d.cpf
              && r.store.debtors == db.debtors + [NewRow(id, d, outcome.defaults)]
  {
    match InsertDebtor(db, id, d, outcome)
    case Ok((db', record)) => Call(db', Payload(record))
    case Err(IntegrityError(message)) => Call(db, ErrorPayload(InsertFailedPrefix + message))
    case Err(DatabaseError(message)) => Call(db, ErrorPayload(message))
  }

  /** debtor-negotiation: "Debtor not found" exactly when no row has the cpf, otherwise the
      resolver's result unchanged. */
  method GetDebtorNegotiationTool(db: Snapshot, cpf: string) returns (r: Reply<NegotiationResult>)
    ensures r.ErrorPayload? <==> forall d :: d in db.debtors ==> d.cpf != cpf
    ensures r.ErrorPayload? ==> r.error == DebtorNotFound
    ensures r.Payload? ==> r.value.debtor.cpf == cpf && IsResolution(db, cpf, Some(r.value))
  {
    var result, selected := FetchNegotiation(db, cpf);
    FetchNegotiationIsResolution(db, cpf, result, selected);
    ResolutionMatchesCpf(db, cpf, result);
    if result.None? {
      r := ErrorPayload(DebtorNotFound);
    } else {
      r := Payload(result.value);
    }
  }

  /** Inserting a debtor and then asking for its cpf: the record carries the cpf, score 0 and the
      generated id, and the lookup finds a debtor with that cpf. When the store keeps its unique
      constraints, that debtor is the one just inserted: debtor-get returns its five fields. */
  lemma {:induction false} InsertThenGet(db: Snapshot, id: Id, d: NewDebtor, defaults: ColumnDefaults)
    ensures var call := AddDebtorTool(db, id, d, Stored(defaults));
            && call.reply == Payload(RecordOf(NewRow(id, d, defaults)))
            && call.reply.value.cpf == d.cpf && call.reply.value.score == 0 && call.reply.value.id == id
            && GetDebtorByCpfTool(call.store, d.cpf).Payload?
            && GetDebtorByCpfTool(call.store, d.cpf).value.cpf == d.cpf
    ensures UniqueDebtorKeys(db.debtors) && ConsistentOutcome(db, id, d, Stored(defaults)) ==>
              GetDebtorByCpfTool(AddDebtorTool(db, id, d, Stored(defaults)).store, d.cpf)
                == Payload(ViewOf(NewRow(id, d, defaults)))
  {
    var call := AddDebtorTool(db, id, d, Stored(defaults));
    assert call.store.debtors[|db.debtors|] in call.store.debtors;
    if UniqueDebtorKeys(db.debtors) && ConsistentOutcome(db, id, d, Stored(defaults)) {
      InsertKeepsKeysUnique(db, id, d, Stored(defaults));
      assert call.store.debtors == InsertDebtor(db, id, d, Stored(defaults)).value.0.debtors;
      DebtorByCpfUnique(call.store.debtors, |db.debtors|);
    }
  }

  /** Adding the same cpf twice to a store that keeps its constraints: the first insert succeeds, the
      second gets an error object and changes nothing, and the store holds one row with that cpf. */
  lemma {:induction false} DuplicateInsertRejected(db: Snapshot, id1: Id, id2: Id, d1: NewDebtor, d2: NewDebtor,
                                                   first: InsertOutcome, second: InsertOutcome)
    requires UniqueDebtorKeys(db.debtors) && d1.cpf == d2.cpf
    requires first.Stored? && ConsistentOutcome(db, id1, d1, first)
    requires ConsistentOutcome(AddDebtorTool(db, id1, d1, first).store, id2, d2, second)
    ensures var call1 := AddDebtorTool(db, id1, d1, first);
            var call2 := AddDebtorTool(call1.store, id2, d2, second);
            && call1.reply.Payload?
            && call2.reply.ErrorPayload? && call2.store == call1.store
            && CountCpf(call2.store.debtors, d1.cpf) == 1
  {
    var call1 := AddDebtorTool(db, id1, d1, first);
    InsertKeepsKeysUnique(db, id1, d1, first);
    var n := |db.debtors|;
    assert call1.store.debtors[n] in call1.store.debtors && call1.store.debtors[n].cpf == d2.cpf;
  }
}
