# CRM negotiation tools: a Dafny model

This project models the in-process logic of a debt-collection CRM's MCP tool server and of its seed
script.

The server answers tool calls with data from a relational store that has four tables: debtors,
engageable contracts, negotiation strategies and negotiation rules. Its main piece is the
negotiation resolver. Given a debtor's CPF, the resolver:

- finds the debtor;
- lists the debtor's open contracts (active, with no agreement), most recent first;
- picks one negotiation strategy among those the contracts reference;
- lists that strategy's rules, oldest first.

Around the resolver sit three smaller pieces: a paginated debtor listing, a lookup by CPF and a
debtor insert. Each is wrapped by a tool that turns "not found" or a failed insert into an object
whose only field is `error`.

The seed script builds 50 debtors from their index. It derives each debtor's CPF, phone, name,
e-mail, trust level, strategy, birth day and contract values from the index.

The store is an immutable `Snapshot` value passed in:

- Each table is a sequence of rows in scan order.
- Ids are UUIDs, held as their 128-bit value.
- Timestamps are integers.
- NUMERIC and DATE columns are held as the text `str()` gives for them.

Each SQL query is a WHERE filter followed by an ORDER BY sort, written as specification functions
in `Sql` and `CrmStore`. The resolver is a method with the source's loops, proved against the
function `Resolved` and the predicate `IsResolution`.

Modules:

- `Wrappers`: Option and Result.
- `Sql`: WHERE, ORDER BY and LIMIT/OFFSET.
- `CrmStore`: the tables and the queries.
- `Crm`: `insert_debtor`, `fetch_debtor_by_cpf` and `fetch_debtors`.
- `Negotiation`: `fech_negotiation`.
- `Tools`: the tool wrappers.
- `Digits`: JavaScript's decimal text of an integer.
- `Seed`: the seed generators.

Two behaviours of the code are worth stating up front:

- **Strategy priority.** The comment at `mcp_server/mcp_server.py:236` says the debtor's own
  `negotiation_strategy_id` takes priority over the contracts' strategies. The code defeats it:
  the debtor dict built at `mcp_server/mcp_server.py:202-210` has that key commented out, so
  `debtor.get(...)` at :237 is always None and the strategy always comes from the contracts. The
  model follows the code; `OwnStrategyNeverConsulted` and `ContractStrategyWinsOverOwn` state this.
- **Error handling.** Only `add_debtor_tool` catches exceptions. The other tools let them
  propagate.

## Model

| member | source | states |
|---|---|---|
| `Sql.Where` | mcp_server/mcp_server.py:215 | WHERE keeps each row that satisfies the condition exactly as many times as the table holds it, and no other row |
| `Sql.SortByKey` | mcp_server/mcp_server.py:216 | ORDER BY returns a permutation of its input (equal multisets) that is sorted by the key |
| `Sql.Window` | mcp_server/mcp_server.py:93 | LIMIT/OFFSET returns at most `limit` rows, namely the rows from position `offset` on, and as many as remain when fewer are left |
| `CrmStore.DebtorByCpf` | mcp_server/mcp_server.py:192-199 | the lookup finds no row exactly when no debtor has the cpf; otherwise it returns a table row carrying that cpf |
| `CrmStore.DebtorByCpfUnique` | mcp_server/mcp_server.py:63-65 | when the store keeps cpfs unique, fetchone() returns exactly the row with that cpf, whatever the scan order |
| `CrmStore.StrategyById` | mcp_server/mcp_server.py:246-251 | the strategy lookup finds no row exactly when no strategy has the id; otherwise it returns a row with that id |
| `CrmStore.EngageableRows` | mcp_server/mcp_server.py:212-218 | the contract query holds each contract of the debtor with status true and no agreement, once per table row, and nothing else, in created_at descending order |
| `CrmStore.RulesOf` | mcp_server/mcp_server.py:261-267 | the rule query holds every rule of the strategy, once per table row, and nothing else, in created_at ascending order |
| `CrmStore.DebtorsById` | mcp_server/mcp_server.py:89-95 | the listing query holds the whole debtor table, reordered by ascending id |
| `CrmStore.IsEngageable` | mcp_server/mcp_server.py:215 | the WHERE clause of the contract query: the debtor's contract, status true, agreement_id null; stated by `CrmStore.EngageableRows` and `CrmStore.ClosedContractNeverEngageable` |
| `CrmStore.ClosedContractNeverEngageable` | mcp_server/mcp_server.py:215 | a contract with status false, a non-null agreement or another debtor never appears among the engageable rows |
| `Crm.ViewOf` | mcp_server/mcp_server.py:69-81 | the five-field dict of a debtor row (cpf, phone, email, full_name, birth_date); its properties are stated by `Crm.FetchDebtorByCpf` and `Crm.FetchDebtors` |
| `Crm.FetchDebtorByCpf` | mcp_server/mcp_server.py:57-82 | None exactly when no debtor row has the cpf; otherwise the cpf, phone, email, full_name and birth_date of such a row, whose cpf equals the query |
| `Crm.EffectivePageSize` | mcp_server/mcp_server.py:85 | the page size is never above 25 or above the requested size, and it is one of the two; there is no lower clamp |
| `Crm.PageOffset` | mcp_server/mcp_server.py:86 | page 1 starts at offset 0; with a page size of at least 0, pages from 1 on have non-negative offsets; with a page size above 0, pages below 1 have negative ones (with size 0 every offset is 0) |
| `Crm.FetchDebtors` | mcp_server/mcp_server.py:84-113 | fails, as PostgreSQL does, exactly when the OFFSET is negative or above the bigint range or the LIMIT is negative: "bigint out of range" when OFFSET or LIMIT does not fit a bigint, then "OFFSET must not be negative", then "LIMIT must not be negative"; otherwise the page is the id-ordered debtors from the offset on, as many as the effective page size or as remain (none past the end), each as its five-field view |
| `Crm.HugeOffsetRejected` | mcp_server/mcp_server.py:85-86 | page 461168601842738791 of size 25 has an offset past the bigint range, so the listing fails with "bigint out of range" |
| `Crm.SecondPageOfTen` | mcp_server/mcp_server.py:84-95 | with at least 20 debtors, page 2 of size 10 holds exactly the 11th to 20th debtors in id order |
| `Crm.DefaultListing` | mcp_server/mcp_server.py:84 | with the default arguments (page 1, page size 10) the listing succeeds and is the first ten debtors in id order, or all of them when there are fewer |
| `Crm.PageNeverAboveMax` | mcp_server/mcp_server.py:85 | whatever page size is requested, a page never holds more than 25 rows |
| `Crm.InsertDebtor` | mcp_server/mcp_server.py:30-55 | a stored insert appends exactly one row and returns a record with the generated id, score 0 and the supplied fields; a rejected insert raises the store's error and stores nothing |
| `Crm.InsertWithoutMotherName` | mcp_server/mcp_server.py:30 | when mother_name is left at its default None, the inserted row and the returned record have no mother name |
| `Crm.NewRow` | mcp_server/mcp_server.py:35-38 | the inserted row: the given id, the arguments, score 0 and the store's defaults; stated by `Crm.InsertDebtor` and `Crm.InsertKeepsKeysUnique` |
| `Crm.RecordOf` | mcp_server/mcp_server.py:43-55 | the dict built from the RETURNING row, all eleven columns; stated by `Crm.InsertDebtor` and `Tools.InsertThenGet` |
| `Crm.InsertKeepsKeysUnique` | mcp_server/mcp_server.py:34-38 | an insert the store accepts under its unique constraints keeps ids and cpfs unique and leaves exactly one row with the new cpf |
| `Negotiation.ProjectContracts` | mcp_server/mcp_server.py:220-234 | the contract loop yields one entry (age, total_value, original_balance) per row, in order, and exactly the set of non-null strategy ids the rows reference |
| `Negotiation.ProjectRules` | mcp_server/mcp_server.py:268-279 | the rule loop yields one entry (min/max value, installments, discount, down payment) per rule row, in order |
| `Negotiation.FetchNegotiation` | mcp_server/mcp_server.py:187-288 | returns None exactly when no debtor has the cpf; otherwise returns the debtor summary, the engageable contracts and the rules of a strategy picked validly from the contracts' strategy ids |
| `Negotiation.SummaryOf` | mcp_server/mcp_server.py:202-210 | the debtor dict: cpf, phone, email and full_name, with no negotiation_strategy_id key; stated by `Negotiation.ResolutionMatchesCpf` and `Negotiation.OwnStrategyNeverConsulted` |
| `Negotiation.ContractViewOf` | mcp_server/mcp_server.py:223-232 | one engageable_contracts entry: age, total_value and original_balance; stated by `Negotiation.ProjectContracts` and `Negotiation.ContractsAndSelection` |
| `Negotiation.RuleViewOf` | mcp_server/mcp_server.py:269-279 | one negotiation_rules entry: min_value, max_value, max_installments, max_discount_percent, min_downpayment_percent; stated by `Negotiation.ProjectRules` and `Negotiation.RulesOfSelection` |
| `Negotiation.StrategyIdsOf` | mcp_server/mcp_server.py:221-234 | the set of the strategy ids the rows reference, a null id skipped; stated by `Negotiation.ProjectContracts`, `Negotiation.ContractsAndSelection` and `Negotiation.SingleStrategyIsDeterministic` |
| `Negotiation.ValidSelection` | mcp_server/mcp_server.py:237-240 | the picks `next(iter(strategy_ids))` may make: none for an empty set, otherwise a member of it; stated by `Negotiation.ContractsAndSelection` and `Negotiation.SingleStrategyIsDeterministic` |
| `Negotiation.RulesFor` | mcp_server/mcp_server.py:242-279 | the rule list: empty unless a strategy was picked and its row exists, otherwise that strategy's rules; stated by `Negotiation.RulesOfSelection` and `Negotiation.NoOpenContractsNoRules` |
| `Negotiation.Resolved` | mcp_server/mcp_server.py:281-286 | the result dict for a debtor once a strategy is picked: its summary, its engageable contracts' views and the picked strategy's rules; stated by `Negotiation.ContractsAndSelection`, `Negotiation.RulesOfSelection` and `Negotiation.NoOpenContractsNoRules` |
| `Negotiation.IsResolution` | mcp_server/mcp_server.py:237-240 | the results the resolver may give: None for an unknown cpf, else `Resolved` for any pick `next(iter(strategy_ids))` may make; stated by `Negotiation.FetchNegotiationIsResolution`, `Negotiation.ResolutionMatchesCpf` and `Negotiation.OwnStrategyNeverConsulted` |
| `Negotiation.FetchNegotiationIsResolution` | mcp_server/mcp_server.py:187-288 | every result the method returns is one of the results `IsResolution` allows |
| `Negotiation.ResolutionMatchesCpf` | mcp_server/mcp_server.py:197-210 | a resolution is None iff no debtor has the cpf, and its debtor block otherwise carries the queried cpf |
| `Negotiation.ContractsAndSelection` | mcp_server/mcp_server.py:212-240 | the contract entries are the engageable contracts, one per row, newest first; no strategy is picked iff none of them references one, and a picked strategy is referenced by one of them |
| `Negotiation.RulesOfSelection` | mcp_server/mcp_server.py:242-279 | rules are empty unless a strategy was picked and its row exists; in that case there is one entry per rule of that strategy, in created_at ascending order |
| `Negotiation.NoOpenContractsNoRules` | mcp_server/mcp_server.py:220-244 | a debtor with no engageable contract gets empty contract and rule lists |
| `Negotiation.OwnStrategyNeverConsulted` | mcp_server/mcp_server.py:202-210 | changing a debtor's own negotiation_strategy_id changes none of the results the resolver may give |
| `Negotiation.ContractStrategyWinsOverOwn` | mcp_server/mcp_server.py:236-240 | for any store: a debtor whose engageable contracts all reference an existing strategy b gets exactly b's rules, whatever its own negotiation_strategy_id holds |
| `Negotiation.SingleStrategyIsDeterministic` | mcp_server/mcp_server.py:238-240 | when all engageable contracts reference one strategy, the arbitrary pick can only be that strategy |
| `Tools.GetDebtorByCpfTool` | mcp_server/mcp_server.py:164-168 | returns `{"error": "Debtor not found"}` exactly when no debtor has the cpf; otherwise the lookup's record, unchanged |
| `Tools.AddDebtorTool` | mcp_server/mcp_server.py:176-184 | never raises: an IntegrityError becomes "Could not insert debtor: " plus its message, any other error its message, each as an error-only object with the store unchanged; success appends the new row and returns its whole record (`RecordOf(NewRow(..))`) |
| `Tools.GetDebtorNegotiationTool` | mcp_server/mcp_server.py:297-301 | returns `{"error": "Debtor not found"}` exactly when no debtor has the cpf; otherwise a valid resolution, unchanged, whose debtor carries the cpf |
| `Tools.InsertThenGet` | mcp_server/mcp_server.py:30-82 | after a successful add, the record carries the cpf, score 0 and the generated id, and debtor-get on that cpf finds a debtor carrying it; when the store keeps its unique constraints, debtor-get returns exactly the inserted debtor's cpf, phone, email, full_name and birth_date |
| `Tools.DuplicateInsertRejected` | mcp_server/mcp_server.py:176-184 | under the unique constraints, a second add of the same cpf returns an error object, leaves the store unchanged, and exactly one row keeps that cpf |
| `Digits.DecimalString` | prisma/prisma/newseed.js:5 | the decimal text of an integer is non-empty, all digits, and has no leading zero |
| `Digits.ParseDecimalString` | prisma/prisma/newseed.js:5 | reading the decimal text back gives the number (round trip) |
| `Digits.DecimalStringInjective` | prisma/prisma/newseed.js:5 | distinct numbers have distinct decimal texts |
| `Digits.DecimalLength` | prisma/prisma/newseed.js:5 | a number from 10^(k-1) up to below 10^k has exactly k digits |
| `Digits.DecimalLengthAtMost` | prisma/prisma/newseed.js:17 | a number below 10^k has at most k digits |
| `Digits.DecimalLengthAtLeast` | prisma/prisma/newseed.js:17 | a number of at least 10^(k-1) has at least k digits |
| `Seed.GenerateCpf` | prisma/prisma/newseed.js:4-6 | the cpf is all digits and reads back as 10000000000 + index |
| `Seed.CpfInjective` | prisma/prisma/newseed.js:4-6 | distinct indices give distinct cpfs |
| `Seed.CpfHasElevenDigits` | prisma/prisma/newseed.js:4-6 | for 0 ≤ index ≤ 89999999999 the cpf has 11 digits |
| `Seed.SliceLast` | prisma/prisma/newseed.js:17 | slice(-n) keeps the last n characters, or the whole string when it is shorter or when n is 0 (slice(-0) is slice(0)) |
| `Seed.GeneratePhone` | prisma/prisma/newseed.js:16-18 | the phone is all digits, starts with "1199" and has 10 to 12 characters, since 100000 + index has at least six digits |
| `Seed.PhoneKeepsAllDigits` | prisma/prisma/newseed.js:16-18 | below index 99900000, slice(-8) cuts nothing: the phone is "1199" followed by the decimal of 100000 + index |
| `Seed.PhoneHasTenCharacters` | prisma/prisma/newseed.js:16-18 | below index 900000 the phone has 10 characters |
| `Seed.PhoneInjective` | prisma/prisma/newseed.js:16-18 | below index 99900000 distinct indices give distinct phones |
| `Seed.PhoneCollidesPastRange` | prisma/prisma/newseed.js:17 | past that range the cut drops leading digits and phones collide: for every m from 1 to 9, index m·10^8 − 100000 (99900000, 199900000, …) gives "119900000000" |
| `Seed.GenerateName` | prisma/prisma/newseed.js:8-10 | the name is "Usuário Teste " followed by digits that read back as the index |
| `Seed.GenerateEmail` | prisma/prisma/newseed.js:12-14 | the e-mail is "teste", digits that read back as the index, and "@teste.com" |
| `Seed.MotherName` | prisma/prisma/newseed.js:130 | the mother's name is "Mãe Teste " followed by digits that read back as the index |
| `Seed.NameAndEmailInjective` | prisma/prisma/newseed.js:8-14 | names, e-mails and mother names embed the index, so each is injective |
| `Seed.TrustLevel` | prisma/prisma/newseed.js:114 | the trust level always lies in 1..5 |
| `Seed.AssignedStrategy` | prisma/prisma/newseed.js:115 | the strategy is loyal_customer exactly when i % 5 is 3 or 4, otherwise maximize_recovery |
| `Seed.PadStart` | prisma/prisma/newseed.js:129 | padStart returns the string, left-filled to the width with the fill character when it is shorter |
| `Seed.BirthDay` | prisma/prisma/newseed.js:129 | the birth day is two digits whose value is (i % 28) + 1, so it lies in "01".."28" |
| `Seed.BirthDate` | prisma/prisma/newseed.js:129 | the birth date has 10 characters, "1980-01-" and a two-digit day whose value is (i % 28) + 1 |
| `Seed.SeedDebtorFor` | prisma/prisma/newseed.js:117-136 | debtor i's cpf reads back as 10000000000 + i, its trust level lies in 1..5, it is verified and authorized exactly when i is even, and its score is the given one |
| `Seed.SeededDebtorsDistinct` | prisma/prisma/newseed.js:113-136 | the 50 seeded debtors have pairwise distinct cpfs (the upsert key), phones, e-mails and names, with 11-digit cpfs and 10-character phones |
| `Seed.ContractTotal` | prisma/prisma/newseed.js:143 | a contract total (500 + 5i + 50c, with original_balance, `Seed.OriginalBalance` at :150, 50 above it) is at least 500 + 5i, so at least 505 for i ≥ 1 |
| `Seed.ContractTotalsIncrease` | prisma/prisma/newseed.js:142-143 | one debtor's contract totals grow by at least 50 with each contract index, so they are distinct |

## Left out

- Database driver and connection plumbing are not modelled: `get_db_connection`, environment loading, commit and `conn.close()`. Only `fech_negotiation` closes the connection on every path (its `try/finally`); `insert_debtor`, `fetch_debtor_by_cpf` and `fetch_debtors` close it only when the statement succeeds, so an exception from `execute` (the IntegrityError `add_debtor_tool` catches, for one) leaves it open.
- Connection failures in the read tools are not modelled. `get_debtor_by_cpf_tool`, `get_debtor_negotiation_tool` and `get_debtors` do not catch them; they propagate out of the tool.
- The store's unique constraints are not enforced by this code. An insert's outcome is a parameter (`Stored` with the store's column defaults, or `Rejected` with its error). `ConsistentOutcome` states how a store that keeps its constraints answers.
- `uuid.uuid4()` is a parameter: the fresh id is given.
- PostgreSQL's conversion of the birth_date text to a DATE is not modelled. That includes its normalisation and its rejection of bad dates, which reaches the model only as a `Rejected` outcome.
- JSON encoding (`json.dumps`, `ensure_ascii`) and `str()` of NUMERIC, DATE and TIMESTAMP values are not modelled. Replies are datatypes; NUMERIC and DATE values are held as their text; created_at stays an integer.
- ORDER BY leaves the order of rows with equal keys unspecified. The model fixes one order: ties stay in table order. The resolver's choice among several strategy ids is left open (`:|`).
- The `negotiation_strategy` dict built at `mcp_server/mcp_server.py:253-258` is never returned (its key is commented out). Only the existence check it rests on is modelled.
- `get_debtors` is only `json.dumps` of `fetch_debtors`, which is modelled as `Crm.FetchDebtors`.
- Percentages and installment counts of rules, and contract ages, are integers. The column types are not part of this model.
- The FastMCP server, tool decorators, prompt text and transport selection are framework and I/O.
- Seed script:
  - The Prisma `upsert`/`create` calls, async/await, logging and `process.exit` are I/O.
  - The update branch of the upsert is not modelled.
  - The constant strategy and rule data (`prisma/prisma/newseed.js:28-108`) is not modelled.
  - The agreement loop (`prisma/prisma/newseed.js:157-175`) is not modelled.
  - `Date` construction is not modelled.
- `randomInt` (float arithmetic over `Math.random`) is not modelled. The score is a parameter of `SeedDebtorFor`. The contract count, contract age and agreement values do not appear.
- JavaScript numbers are IEEE doubles. The seed functions use unbounded integers, which agree for indices below 2^53 - 10^10.
