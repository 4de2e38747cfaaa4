/** The connector operation manifest: four dumps merged into one row per supported
    operation, failing wherever two sources disagree beyond the listed exceptions. */
module OperationMerge {
  import opened Wrappers
  import opened Utf8Order

  type Op = string
  type Provider = string

  const UNRESOLVED_MUTATING: set<Op> := {"msteams.message.reply"}
  const KNOWN_PROJECTION_DISAGREEMENTS: set<Op> :=
    {"microsoft_graph.calendar.events.list", "microsoft_graph.todo.tasks.list"}

  /** One row of a dump, about one operation at one provider. */
  datatype Row<V> = Row(op: Op, provider: Provider, value: V)

  type Table<V> = map<Op, map<Provider, V>>

  datatype Pair = Pair(supported: bool, viewer: bool, writer: bool, transport: bool, noRole: bool, roles: set<string>)
  datatype Binding = Binding(tool: string, mutating: bool, projection: string)
  datatype NavigatorRow = NavigatorRow(tool: string, mutating: bool, projection: string)

  datatype Platform = Platform(supported: seq<Op>, pairs: seq<Row<Pair>>, roles: map<string, string>)

  datatype PolicyRow = PolicyRow(op: Op, providers: seq<Provider>)

  datatype Policy = Policy(operatorRole: string, readOnlyRole: string, taskWriterRole: string,
                           operations: seq<PolicyRow>, readOnly: seq<PolicyRow>, taskWriter: seq<PolicyRow>,
                           transport: seq<PolicyRow>)

  datatype Exchange = Exchange(tools: seq<Row<string>>, bindings: seq<Row<Binding>>, mutating: set<Op>)

  /** Null answers are left out of `policies`. */
  datatype Navigator = Navigator(policies: seq<Row<NavigatorRow>>, scopeLocks: map<Op, string>,
                                 locksOutsideGithub: bool, outerClaim: map<Provider, bool>)

  datatype Fault =
    | RepeatedOperation | MissingRows | PolicyDisagrees | ExchangeTablesDisagree | LockOutsideGithub
    | UnsupportedInNavigator | NoProvider | ForeignTool | NavigatorProviders | NavigatorDepends | ToolDisagrees
    | MutationDisagrees | MutationUnknown | LockNotMutating | BindingDisagrees | RolesDisagree | StaleException
    | UnlistedSupport | UnknownProvider

  // ---- Tables ------------------------------------------------------------

  function At<V>(table: Table<V>, op: Op): map<Provider, V> {
    if op in table then table[op] else map[]
  }

  /** `setdefault(operation, {})[provider] = row`, row by row. */
  function Index<V>(rows: seq<Row<V>>): Table<V> {
    if rows == [] then map[]
    else
      var before, last := Index(rows[..|rows| - 1]), rows[|rows| - 1];
      before[last.op := At(before, last.op)[last.provider := last.value]]
  }

  method IndexRows<V>(rows: seq<Row<V>>) returns (table: Table<V>)
    ensures table == Index(rows)
  {
    table := map[];
    for i := 0 to |rows|
      invariant table == Index(rows[..i])
    {
      assert rows[..i + 1][..i] == rows[..i];
      if rows[i].op !in table {
        table := table[rows[i].op := map[]];
      }
      table := table[rows[i].op := table[rows[i].op][rows[i].provider := rows[i].value]];
    }
    assert rows[..|rows|] == rows;
  }

  /** No two rows are about the same operation at the same provider. */
  ghost predicate Unique<V>(rows: seq<Row<V>>) {
    forall i, j | 0 <= i < j < |rows| :: rows[i].op != rows[j].op || rows[i].provider != rows[j].provider
  }

  predicate Holds<V(==)>(table: Table<V>, r: Row<V>) {
    r.op in table && r.provider in table[r.op] && table[r.op][r.provider] == r.value
  }

  /** With unique rows the table holds exactly the rows. */
  lemma {:induction false} IndexHoldsTheRows<V>(rows: seq<Row<V>>, r: Row<V>)
    requires Unique(rows)
    ensures Holds(Index(rows), r) <==> r in rows
    ensures r.op in Index(rows) && r.provider in Index(rows)[r.op] ==>
              exists x | x in rows :: x.op == r.op && x.provider == r.provider
  {
    if rows != [] {
      var before, last := rows[..|rows| - 1], rows[|rows| - 1];
      IndexHoldsTheRows(before, r);
      assert last in rows;
      if r.op == last.op && r.provider == last.provider {
        assert r in rows ==> r == last;
      } else {
        assert r in rows <==> r in before;
      }
    }
  }

  /** An operation is in the table exactly when some row is about it. */
  lemma {:induction false} IndexHasTheOperations<V>(rows: seq<Row<V>>, op: Op)
    ensures op in Index(rows) <==> exists r | r in rows :: r.op == op
    ensures op in Index(rows) ==> Index(rows)[op] != map[]
  {
    if rows != [] {
      var before, last := rows[..|rows| - 1], rows[|rows| - 1];
      IndexHasTheOperations(before, op);
      assert last in rows;
      if op in Index(rows) && op != last.op {
        var r :| r in before && r.op == op;
        assert r in rows;
      }
      if op == last.op {
        assert last.provider in Index(rows)[op];
      }
    }
  }

  ghost predicate SameRows<V>(a: seq<Row<V>>, b: seq<Row<V>>) {
    Unique(a) && Unique(b) && (forall r | r in a :: r in b) && forall r | r in b :: r in a
  }

  /** The order of unique rows does not matter. */
  lemma {:induction false} IndexIgnoresOrder<V>(a: seq<Row<V>>, b: seq<Row<V>>)
    requires SameRows(a, b)
    ensures Index(a) == Index(b)
  {
    forall op | op in Index(a) || op in Index(b)
      ensures op in Index(a) && op in Index(b) && Index(a)[op] == Index(b)[op]
    {
      IndexHasTheOperations(a, op);
      IndexHasTheOperations(b, op);
      forall p ensures p in Index(a)[op] ==> p in Index(b)[op] && Index(b)[op][p] == Index(a)[op][p] {
        if p in Index(a)[op] {
          IndexHoldsTheRows(a, Row(op, p, Index(a)[op][p]));
          IndexHoldsTheRows(b, Row(op, p, Index(a)[op][p]));
        }
      }
      forall p ensures p in Index(b)[op] ==> p in Index(a)[op] {
        if p in Index(b)[op] {
          IndexHoldsTheRows(b, Row(op, p, Index(b)[op][p]));
          IndexHoldsTheRows(a, Row(op, p, Index(b)[op][p]));
        }
      }
    }
    assert Index(a).Keys == Index(b).Keys;
  }

  // ---- Sorted names ------------------------------------------------------

  ghost predicate IsLeast(n: string, names: set<string>) {
    n in names && forall m | m in names :: n == m || NameLess(n, m)
  }

  lemma {:induction false} LeastExists(names: set<string>)
    requires names != {}
    ensures exists n :: IsLeast(n, names)
    decreases |names|
  {
    var n :| n in names;
    if names == {n} {
      assert IsLeast(n, names);
    } else {
      LeastExists(names - {n});
      var l :| IsLeast(l, names - {n});
      NamesAreComparable(n, l);
      if NameLess(n, l) {
        forall m | m in names - {n} ensures n == m || NameLess(n, m) {
          if l != m {
            NameOrderIsTransitive(n, l, m);
          }
        }
        assert IsLeast(n, names);
      } else {
        assert IsLeast(l, names);
      }
    }
  }

  /** Python's `sorted` on a set of names. */
  ghost function Sorted(names: set<string>): (listing: seq<string>)
    ensures forall n :: n in listing <==> n in names
    ensures NoDuplicates(listing)
    ensures forall i, j | 0 <= i < j < |listing| :: NameLess(listing[i], listing[j])
    decreases |names|
  {
    if names == {} then []
    else
      LeastExists(names);
      var least :| IsLeast(least, names);
      [least] + Sorted(names - {least})
  }

  // ---- One operation -----------------------------------------------------

  datatype Context = Context(pairs: Table<Pair>, tools: Table<string>, bindings: Table<Binding>, mutating: set<Op>,
                             policies: Table<NavigatorRow>, scopeLocks: map<Op, string>)

  datatype Operation = Operation(op: Op, providers: set<Provider>, roles: set<string>, transport: bool,
                                 mutating: Option<bool>, tools: map<Provider, string>,
                                 projections: map<Provider, string>, navigator: Option<NavigatorRow>,
                                 scopeLock: Option<string>)

  function Providers(rows: map<Provider, Pair>): set<Provider> {
    set p | p in rows && rows[p].supported
  }

  predicate AllAlike(rows: map<Provider, NavigatorRow>) {
    forall p, q | p in rows && q in rows :: rows[p] == rows[q]
  }

  /** Any of the rows; used once they are known to be alike. */
  ghost function AnyRow(rows: map<Provider, NavigatorRow>): (r: Option<NavigatorRow>)
    ensures r.None? <==> rows == map[]
    ensures r.Some? ==> exists p | p in rows :: rows[p] == r.value
  {
    if rows == map[] then None
    else
      assert rows.Keys != {};
      var p :| p in rows;
      Some(rows[p])
  }

  function Mutation(op: Op, tools: map<Provider, string>, mutating: set<Op>, row: Option<NavigatorRow>): Option<bool> {
    if row.Some? then Some(row.value.mutating) else if tools != map[] then Some(op in mutating) else None
  }

  predicate ProjectionsDiffer(bindings: map<Provider, Binding>, row: Option<NavigatorRow>) {
    row.Some? && exists p | p in bindings :: bindings[p].projection != row.value.projection
  }

  predicate RolesAgree(rows: map<Provider, Pair>, providers: set<Provider>)
    requires providers <= rows.Keys
  {
    && (forall p | p in providers :: !rows[p].noRole && "operator" in rows[p].roles)
    && forall p, q | p in providers && q in providers :: rows[p].roles == rows[q].roles
  }

  function RolesOf(rows: map<Provider, Pair>, providers: set<Provider>): set<string>
    requires providers <= rows.Keys
  {
    set p, role | p in providers && role in rows[p].roles :: role
  }

  /** The checks of one turn of the loop over the operations, given its navigator row. */
  function Check(op: Op, c: Context, row: Option<NavigatorRow>): Option<Fault> {
    if op !in c.pairs then Some(MissingRows)
    else
      var rows, tools, bindings, policies := c.pairs[op], At(c.tools, op), At(c.bindings, op), At(c.policies, op);
      var providers, mutation := Providers(rows), Mutation(op, tools, c.mutating, row);
      if providers == {} then Some(NoProvider)
      else if !(tools.Keys <= providers) then Some(ForeignTool)
      else if policies != map[] && policies.Keys != providers then Some(NavigatorProviders)
      else if !AllAlike(policies) then Some(NavigatorDepends)
      else if row.Some? && exists p | p in tools :: tools[p] != row.value.tool then Some(ToolDisagrees)
      else if row.Some? && tools != map[] && (op in c.mutating) != row.value.mutating then Some(MutationDisagrees)
      else if mutation.None? && op !in UNRESOLVED_MUTATING then Some(MutationUnknown)
      else if op in c.scopeLocks && mutation != Some(true) then Some(LockNotMutating)
      else if exists p | p in bindings :: Some(bindings[p].mutating) != mutation then Some(BindingDisagrees)
      else if ProjectionsDiffer(bindings, row) && op !in KNOWN_PROJECTION_DISAGREEMENTS then Some(BindingDisagrees)
      else if !RolesAgree(rows, providers) then Some(RolesDisagree)
      else None
  }

  function OperationOf(op: Op, c: Context, row: Option<NavigatorRow>): Operation
    requires op in c.pairs
  {
    var rows, tools, bindings := c.pairs[op], At(c.tools, op), At(c.bindings, op);
    var providers := Providers(rows);
    Operation(op, providers, RolesOf(rows, providers), exists p | p in providers :: rows[p].transport,
              Mutation(op, tools, c.mutating, row), tools, map p | p in bindings :: bindings[p].projection,
              row, if op in c.scopeLocks then Some(c.scopeLocks[op]) else None)
  }

  datatype Progress = Progress(operations: seq<Operation>, unresolved: set<Op>, projections: set<Op>)

  ghost function MergeOne(op: Op, c: Context, so: Progress): Result<Progress, Fault> {
    var row := AnyRow(At(c.policies, op));
    var fault := Check(op, c, row);
    if fault.Some? then Err(fault.value)
    else
      var operation := OperationOf(op, c, row);
      Ok(Progress(so.operations + [operation],
                  if operation.mutating.None? then so.unresolved + {op} else so.unresolved,
                  if ProjectionsDiffer(At(c.bindings, op), row) then so.projections + {op} else so.projections))
  }

  ghost function MergeAll(ops: seq<Op>, c: Context): Result<Progress, Fault> {
    if ops == [] then Ok(Progress([], {}, {}))
    else
      var before := MergeAll(ops[..|ops| - 1], c);
      if before.Err? then before else MergeOne(ops[|ops| - 1], c, before.value)
  }

  /** The loop over the sorted operations, with its two exception sets. */
  method MergeOperations(ops: seq<Op>, c: Context) returns (r: Result<Progress, Fault>)
    ensures r == MergeAll(ops, c)
  {
    var so := Progress([], {}, {});
    for i := 0 to |ops|
      invariant MergeAll(ops[..i], c) == Ok(so)
    {
      assert ops[..i + 1][..i] == ops[..i];
      var op, policies := ops[i], At(c.policies, ops[i]);
      var row: Option<NavigatorRow> := None;
      if policies != map[] {
        assert policies.Keys != {};
        var p :| p in policies;
        row := Some(policies[p]);
      }
      AnyRowWillDo(op, c, row);
      var fault := Check(op, c, row);
      if fault.Some? {
        FailureStays(ops, i + 1, c);
        return Err(fault.value);
      }
      var operation := OperationOf(op, c, row);
      so := Progress(so.operations + [operation],
                     if operation.mutating.None? then so.unresolved + {op} else so.unresolved,
                     if ProjectionsDiffer(At(c.bindings, op), row) then so.projections + {op} else so.projections);
    }
    assert ops[..|ops|] == ops;
    r := Ok(so);
  }

  /** Whichever row the navigator's answers are read from, the outcome is the same. */
  lemma {:induction false} AnyRowWillDo(op: Op, c: Context, row: Option<NavigatorRow>)
    requires
      var policies := At(c.policies, op);
      if policies == map[] then row == None else row.Some? && exists p | p in policies :: policies[p] == row.value
    ensures Check(op, c, row) == Check(op, c, AnyRow(At(c.policies, op)))
    ensures Check(op, c, row) == None ==> row == AnyRow(At(c.policies, op))
  {
  }

  lemma {:induction false} FailureStays(ops: seq<Op>, i: nat, c: Context)
    requires i <= |ops| && MergeAll(ops[..i], c).Err?
    ensures MergeAll(ops, c) == MergeAll(ops[..i], c)
    decreases |ops|
  {
    if i == |ops| {
      assert ops[..i] == ops;
    } else {
      assert ops[..|ops| - 1][..i] == ops[..i];
      FailureStays(ops[..|ops| - 1], i, c);
    }
  }

  // ---- The whole manifest ------------------------------------------------

  datatype Inputs = Inputs(platform: Platform, policy: Policy, exchange: Exchange, navigator: Navigator)

  datatype ExchangeOnly = ExchangeOnly(op: Op, mutating: bool, tools: map<Provider, string>)

  datatype Manifest = Manifest(roles: map<string, string>, outerClaims: map<Provider, Option<bool>>,
                               operations: seq<Operation>, exchangeOnly: seq<ExchangeOnly>)

  function AsSet<T>(s: seq<T>): set<T> {
    set x | x in s
  }

  function ContextOf(i: Inputs): Context {
    Context(Index(i.platform.pairs), Index(i.exchange.tools), Index(i.exchange.bindings), i.exchange.mutating,
            Index(i.navigator.policies), i.navigator.scopeLocks)
  }

  /** The pairs that a section of the policy lists. */
  function ListedPairs(section: seq<PolicyRow>): set<(Op, Provider)> {
    set row, p | row in section && p in row.providers :: (row.op, p)
  }

  /** The pairs of supported operations that Platform puts in a catalog. */
  predicate CatalogAgrees(listed: set<(Op, Provider)>, pairs: Table<Pair>, supported: set<Op>, field: Pair -> bool) {
    && (forall x | x in listed :: x.0 in supported && x.0 in pairs && x.1 in pairs[x.0] && field(pairs[x.0][x.1]))
    && (forall op, p | op in supported && op in pairs && p in pairs[op] && field(pairs[op][p]) :: (op, p) in listed)
  }

  /** An operation with its providers, in no order but with repetitions. */
  type Declared = (Op, multiset<Provider>)

  function Declarations(rows: seq<PolicyRow>): set<Declared> {
    set row | row in rows :: (row.op, multiset(row.providers))
  }

  function DeclaredOperations(declared: set<Declared>): set<Op> {
    set d | d in declared :: d.0
  }

  /** `_check_policy` finds nothing to object to. */
  ghost predicate PolicyAgrees(policy: Policy, pairs: Table<Pair>, supported: set<Op>, roles: map<string, string>) {
    && "operator" in roles && roles["operator"] == policy.operatorRole
    && "automationViewer" in roles && roles["automationViewer"] == policy.readOnlyRole
    && "officeTaskWriter" in roles && roles["officeTaskWriter"] == policy.taskWriterRole
    && |DeclaredOperations(Declarations(policy.operations))| == |policy.operations|
    && DeclaredOperations(Declarations(policy.operations)) == supported
    && (forall d | d in Declarations(policy.operations) :: d.0 in pairs && d.1 == multiset(Providers(pairs[d.0])))
    && CatalogAgrees(ListedPairs(policy.readOnly), pairs, supported, (p: Pair) => p.viewer)
    && CatalogAgrees(ListedPairs(policy.taskWriter), pairs, supported, (p: Pair) => p.writer)
    && CatalogAgrees(ListedPairs(policy.transport), pairs, supported, (p: Pair) => p.transport)
  }

  /** The same policy, its operations, sections and providers in any order. */
  ghost predicate SamePolicy(a: Policy, b: Policy) {
    && a.operatorRole == b.operatorRole && a.readOnlyRole == b.readOnlyRole && a.taskWriterRole == b.taskWriterRole
    && |a.operations| == |b.operations| && Declarations(a.operations) == Declarations(b.operations)
    && ListedPairs(a.readOnly) == ListedPairs(b.readOnly) && ListedPairs(a.taskWriter) == ListedPairs(b.taskWriter)
    && ListedPairs(a.transport) == ListedPairs(b.transport)
  }

  /** Every binding names the tool that Exchange's other table names. */
  ghost predicate TablesAgree(bindings: seq<Row<Binding>>, tools: Table<string>) {
    forall r | r in bindings :: Holds(tools, Row(r.op, r.provider, r.value.tool))
  }

  ghost function ExchangeOnlyRows(ops: seq<Op>, c: Context): Result<seq<ExchangeOnly>, Fault> {
    if ops == [] then Ok([])
    else
      var before, op := ExchangeOnlyRows(ops[..|ops| - 1], c), ops[|ops| - 1];
      if before.Err? then before
      else if op !in c.pairs then Err(MissingRows)
      else if Providers(c.pairs[op]) != {} then Err(UnlistedSupport)
      else Ok(before.value + [ExchangeOnly(op, op in c.mutating, At(c.tools, op))])
  }

  function ProviderIds(operations: seq<Operation>): set<Provider> {
    set o, p | o in operations && p in o.providers :: p
  }

  function BoundProviders(rows: seq<Row<NavigatorRow>>): set<Provider> {
    set r | r in rows :: r.provider
  }

  /** What the checks before the loop find wrong. */
  ghost function Objection(i: Inputs, c: Context): Option<Fault> {
    var supported := AsSet(i.platform.supported);
    if |supported| != |i.platform.supported| then Some(RepeatedOperation)
    else if !(supported <= c.pairs.Keys) then Some(MissingRows)
    else if !PolicyAgrees(i.policy, c.pairs, supported, i.platform.roles) then Some(PolicyDisagrees)
    else if !TablesAgree(i.exchange.bindings, c.tools) then Some(ExchangeTablesDisagree)
    else if i.navigator.locksOutsideGithub then Some(LockOutsideGithub)
    else if exists r | r in i.navigator.policies :: r.op !in supported then Some(UnsupportedInNavigator)
    else None
  }

  /** The checks and lists after the loop. */
  ghost function Finish(i: Inputs, c: Context, remaining: seq<Op>, so: Progress): Result<Manifest, Fault> {
    var only := ExchangeOnlyRows(remaining, c);
    var known, bound := ProviderIds(so.operations), BoundProviders(i.navigator.policies);
    if so.unresolved != UNRESOLVED_MUTATING || so.projections != KNOWN_PROJECTION_DISAGREEMENTS then Err(StaleException)
    else if only.Err? then Err(only.error)
    else if !(bound <= known) then Err(UnknownProvider)
    else if !(bound <= i.navigator.outerClaim.Keys) then Err(MissingRows)
    else
      Ok(Manifest(i.platform.roles, map p | p in known :: if p in bound then Some(i.navigator.outerClaim[p]) else None,
                  so.operations, only.value))
  }

  /** Operations that Exchange maps and Platform does not support. */
  ghost function Remaining(i: Inputs): (ops: seq<Op>)
    ensures forall op :: op in ops <==> op in Index(i.exchange.tools) && op !in i.platform.supported
  {
    Sorted(Index(i.exchange.tools).Keys - AsSet(i.platform.supported))
  }

  /** `build_manifest`. */
  ghost function Build(i: Inputs): Result<Manifest, Fault> {
    var c := ContextOf(i);
    var objection := Objection(i, c);
    if objection.Some? then Err(objection.value)
    else
      var merged := MergeAll(Sorted(AsSet(i.platform.supported)), c);
      if merged.Err? then Err(merged.error) else Finish(i, c, Remaining(i), merged.value)
  }

  // ---- Order does not matter ---------------------------------------------

  /** The same inputs: rows in any order and unique per operation and provider, and a
      policy in any order. */
  ghost predicate SameInputs(a: Inputs, b: Inputs) {
    && (forall op :: op in a.platform.supported <==> op in b.platform.supported)
    && |a.platform.supported| == |b.platform.supported|
    && SameRows(a.platform.pairs, b.platform.pairs) && a.platform.roles == b.platform.roles
    && SamePolicy(a.policy, b.policy)
    && SameRows(a.exchange.tools, b.exchange.tools) && SameRows(a.exchange.bindings, b.exchange.bindings)
    && a.exchange.mutating == b.exchange.mutating
    && SameRows(a.navigator.policies, b.navigator.policies) && a.navigator.scopeLocks == b.navigator.scopeLocks
    && a.navigator.locksOutsideGithub == b.navigator.locksOutsideGithub
    && a.navigator.outerClaim == b.navigator.outerClaim
  }

  lemma {:induction false} SameContext(a: Inputs, b: Inputs)
    requires SameInputs(a, b)
    ensures ContextOf(a) == ContextOf(b) && AsSet(a.platform.supported) == AsSet(b.platform.supported)
    ensures BoundProviders(a.navigator.policies) == BoundProviders(b.navigator.policies)
  {
    IndexIgnoresOrder(a.platform.pairs, b.platform.pairs);
    IndexIgnoresOrder(a.exchange.tools, b.exchange.tools);
    IndexIgnoresOrder(a.exchange.bindings, b.exchange.bindings);
    IndexIgnoresOrder(a.navigator.policies, b.navigator.policies);
  }

  lemma {:induction false} SameObjection(a: Inputs, b: Inputs, c: Context)
    requires SameInputs(a, b) && AsSet(a.platform.supported) == AsSet(b.platform.supported)
    ensures Objection(a, c) == Objection(b, c)
  {
  }

  /** The manifest, or the fault, does not depend on the order of the rows. */
  lemma {:induction false} BuildIgnoresOrder(a: Inputs, b: Inputs)
    requires SameInputs(a, b)
    ensures Build(a) == Build(b)
  {
    SameContext(a, b);
    SameObjection(a, b, ContextOf(a));
    SameFinish(a, b);
  }

  lemma {:induction false} SameFinish(a: Inputs, b: Inputs)
    requires SameInputs(a, b) && AsSet(a.platform.supported) == AsSet(b.platform.supported)
    requires BoundProviders(a.navigator.policies) == BoundProviders(b.navigator.policies)
    requires Index(a.exchange.tools) == Index(b.exchange.tools)
    ensures Remaining(a) == Remaining(b)
    ensures forall c, so :: Finish(a, c, Remaining(a), so) == Finish(b, c, Remaining(b), so)
  {
  }

  // ---- What success means ------------------------------------------------

  /** The turn of one operation leaves this. */
  ghost predicate Merged(op: Op, c: Context, operation: Operation) {
    var row := AnyRow(At(c.policies, op));
    Check(op, c, row) == None && op in c.pairs && operation == OperationOf(op, c, row)
  }

  lemma {:induction false} TurnMerges(op: Op, c: Context, so: Progress)
    requires MergeOne(op, c, so).Ok?
    ensures op in c.pairs
    ensures
      var next := MergeOne(op, c, so).value;
      && |next.operations| == |so.operations| + 1 && next.operations[..|so.operations|] == so.operations
      && Merged(op, c, next.operations[|so.operations|])
      && next.unresolved == so.unresolved + (if Unresolved(op, c) then {op} else {})
      && next.projections == so.projections + (if Disagrees(op, c) then {op} else {})
  {
  }

  lemma {:induction false} MergedOneByOne(ops: seq<Op>, c: Context)
    requires MergeAll(ops, c).Ok?
    ensures |MergeAll(ops, c).value.operations| == |ops|
    ensures forall k | 0 <= k < |ops| :: Merged(ops[k], c, MergeAll(ops, c).value.operations[k])
  {
    if ops != [] {
      var before := ops[..|ops| - 1];
      MergedOneByOne(before, c);
      TurnMerges(ops[|ops| - 1], c, MergeAll(before, c).value);
    }
  }

  lemma {:induction false} ExceptionsGathered(ops: seq<Op>, c: Context)
    requires MergeAll(ops, c).Ok?
    ensures MergeAll(ops, c).value.unresolved == set op | op in ops && op in c.pairs && Unresolved(op, c)
    ensures MergeAll(ops, c).value.projections == set op | op in ops && Disagrees(op, c)
  {
    if ops != [] {
      var before, op := ops[..|ops| - 1], ops[|ops| - 1];
      ExceptionsGathered(before, c);
      TurnMerges(op, c, MergeAll(before, c).value);
      assert forall x :: x in ops <==> x in before || x == op;
    }
  }

  ghost predicate Unresolved(op: Op, c: Context)
    requires op in c.pairs
  {
    OperationOf(op, c, AnyRow(At(c.policies, op))).mutating.None?
  }

  ghost predicate Disagrees(op: Op, c: Context) {
    ProjectionsDiffer(At(c.bindings, op), AnyRow(At(c.policies, op)))
  }

  /** A recorded operation says of providers and roles what Platform says. */
  ghost predicate FitsPlatform(o: Operation, pairs: seq<Row<Pair>>) {
    && o.providers != {} && (forall p | p in o.providers :: exists r | r in pairs ::
      r.op == o.op && r.provider == p && r.value.supported)
    && forall r | r in pairs && r.op == o.op ::
         && (r.value.supported <==> r.provider in o.providers)
         && (r.value.supported ==> r.value.roles == o.roles && "operator" in o.roles && !r.value.noRole)
  }

  /** ... and is a transport operation exactly when Platform lists it so for a provider
      that it supports. */
  ghost predicate FitsTransport(o: Operation, pairs: seq<Row<Pair>>) {
    o.transport <==> exists r | r in pairs :: r.op == o.op && r.value.supported && r.value.transport
  }

  /** ... of tools, mutation and projections what Exchange says. */
  ghost predicate FitsExchange(o: Operation, exchange: Exchange) {
    && (forall r | r in exchange.tools && r.op == o.op ::
          && r.provider in o.providers && r.provider in o.tools && o.tools[r.provider] == r.value
          && o.mutating == Some(o.op in exchange.mutating)
          && (o.navigator.Some? ==> r.value == o.navigator.value.tool))
    && (forall r | r in exchange.bindings && r.op == o.op ::
          && o.mutating == Some(r.value.mutating)
          && r.provider in o.projections && o.projections[r.provider] == r.value.projection
          && r.provider in o.tools && o.tools[r.provider] == r.value.tool
          && (o.navigator.Some? && o.op !in KNOWN_PROJECTION_DISAGREEMENTS ==>
                r.value.projection == o.navigator.value.projection))
  }

  /** ... and of all of it what Navigator says. */
  ghost predicate FitsNavigator(o: Operation, navigator: Navigator) {
    && (forall r | r in navigator.policies && r.op == o.op ::
          r.provider in o.providers && o.navigator == Some(r.value) && o.mutating == Some(r.value.mutating))
    && (o.navigator.Some? ==> forall p | p in o.providers :: exists r | r in navigator.policies ::
          r.op == o.op && r.provider == p)
    && (o.op in navigator.scopeLocks ==> o.scopeLock == Some(navigator.scopeLocks[o.op]) && o.mutating == Some(true))
    && (o.scopeLock.Some? ==> o.op in navigator.scopeLocks)
  }

  ghost predicate UniqueRows(i: Inputs) {
    Unique(i.platform.pairs) && Unique(i.exchange.tools) && Unique(i.exchange.bindings) && Unique(i.navigator.policies)
  }

  lemma {:induction false} TableOfRows<V>(rows: seq<Row<V>>, op: Op)
    requires Unique(rows)
    ensures forall r | r in rows && r.op == op ::
              r.provider in At(Index(rows), op) && At(Index(rows), op)[r.provider] == r.value
    ensures forall p | p in At(Index(rows), op) :: Row(op, p, At(Index(rows), op)[p]) in rows
  {
    forall r | r in rows && r.op == op ensures r.provider in At(Index(rows), op)
      && At(Index(rows), op)[r.provider] == r.value {
      IndexHoldsTheRows(rows, r);
    }
    forall p | p in At(Index(rows), op) ensures Row(op, p, At(Index(rows), op)[p]) in rows {
      IndexHoldsTheRows(rows, Row(op, p, At(Index(rows), op)[p]));
    }
  }

  lemma {:induction false} CheckedFitsPlatform(i: Inputs, op: Op, row: Option<NavigatorRow>)
    requires UniqueRows(i) && Check(op, ContextOf(i), row) == None
    ensures op in ContextOf(i).pairs && FitsPlatform(OperationOf(op, ContextOf(i), row), i.platform.pairs)
  {
    var c := ContextOf(i);
    var o := OperationOf(op, c, row);
    TableOfRows(i.platform.pairs, op);
    forall p | p in o.providers ensures exists r | r in i.platform.pairs ::
      r.op == op && r.provider == p && r.value.supported {
      assert p in At(Index(i.platform.pairs), op);
      assert Row(op, p, At(Index(i.platform.pairs), op)[p]) in i.platform.pairs;
    }
    RolesAreThoseOfEach(c.pairs[op], o.providers);
  }

  lemma {:induction false} CheckedFitsTransport(i: Inputs, op: Op, row: Option<NavigatorRow>)
    requires UniqueRows(i) && op in ContextOf(i).pairs
    ensures FitsTransport(OperationOf(op, ContextOf(i), row), i.platform.pairs)
  {
    var rows := At(Index(i.platform.pairs), op);
    var o := OperationOf(op, ContextOf(i), row);
    TableOfRows(i.platform.pairs, op);
    if o.transport {
      var p :| p in o.providers && rows[p].transport;
      assert Row(op, p, rows[p]) in i.platform.pairs;
    }
    if r :| r in i.platform.pairs && r.op == op && r.value.supported && r.value.transport {
      assert r.provider in o.providers && rows[r.provider].transport;
    }
  }

  lemma {:induction false} RolesAreThoseOfEach(rows: map<Provider, Pair>, providers: set<Provider>)
    requires providers <= rows.Keys && RolesAgree(rows, providers)
    ensures forall p | p in providers :: rows[p].roles == RolesOf(rows, providers)
  {
  }

  lemma {:induction false} CheckedFitsExchange(i: Inputs, op: Op, row: Option<NavigatorRow>)
    requires UniqueRows(i) && Check(op, ContextOf(i), row) == None
               && TablesAgree(i.exchange.bindings, ContextOf(i).tools)
    ensures op in ContextOf(i).pairs && FitsExchange(OperationOf(op, ContextOf(i), row), i.exchange)
  {
    TableOfRows(i.exchange.tools, op);
    TableOfRows(i.exchange.bindings, op);
  }

  lemma {:induction false} CheckedFitsNavigator(i: Inputs, op: Op)
    requires UniqueRows(i) && Check(op, ContextOf(i), AnyRow(At(ContextOf(i).policies, op))) == None
    ensures op in ContextOf(i).pairs
    ensures FitsNavigator(OperationOf(op, ContextOf(i), AnyRow(At(ContextOf(i).policies, op))), i.navigator)
  {
    var c := ContextOf(i);
    var policies := At(c.policies, op);
    TableOfRows(i.navigator.policies, op);
    forall p | p in policies ensures exists r | r in i.navigator.policies :: r.op == op && r.provider == p {
      assert Row(op, p, policies[p]) in i.navigator.policies;
    }
  }

  /** A row agrees with every row of every source, save for the listed projections. */
  ghost predicate FitsAll(o: Operation, i: Inputs) {
    && FitsPlatform(o, i.platform.pairs) && FitsTransport(o, i.platform.pairs)
    && FitsExchange(o, i.exchange) && FitsNavigator(o, i.navigator)
  }

  lemma {:induction false} CheckedFitsAll(i: Inputs, op: Op, o: Operation)
    requires UniqueRows(i) && TablesAgree(i.exchange.bindings, ContextOf(i).tools) && Merged(op, ContextOf(i), o)
    ensures o.op == op && FitsAll(o, i)
  {
    var row := AnyRow(At(ContextOf(i).policies, op));
    CheckedFitsPlatform(i, op, row);
    CheckedFitsTransport(i, op, row);
    CheckedFitsExchange(i, op, row);
    CheckedFitsNavigator(i, op);
  }

  /** What a successful build went through. */
  lemma {:induction false} BuildSteps(i: Inputs) returns (so: Progress)
    requires Build(i).Ok?
    ensures MergeAll(Sorted(AsSet(i.platform.supported)), ContextOf(i)) == Ok(so)
    ensures so.operations == Build(i).value.operations
    ensures so.unresolved == UNRESOLVED_MUTATING && so.projections == KNOWN_PROJECTION_DISAGREEMENTS
    ensures TablesAgree(i.exchange.bindings, ContextOf(i).tools)
  {
    so := MergeAll(Sorted(AsSet(i.platform.supported)), ContextOf(i)).value;
    FinishKeepsTheOperations(i, ContextOf(i), Remaining(i), so);
    NoObjection(i, ContextOf(i));
  }

  lemma {:induction false} FinishKeepsTheOperations(i: Inputs, c: Context, remaining: seq<Op>, so: Progress)
    requires Finish(i, c, remaining, so).Ok?
    ensures Finish(i, c, remaining, so).value.operations == so.operations
    ensures so.unresolved == UNRESOLVED_MUTATING && so.projections == KNOWN_PROJECTION_DISAGREEMENTS
  {
  }

  lemma {:induction false} NoObjection(i: Inputs, c: Context)
    requires Objection(i, c) == None
    ensures TablesAgree(i.exchange.bindings, c.tools)
  {
  }

  lemma {:induction false} MergedFitsAll(i: Inputs, ops: seq<Op>, so: Progress)
    requires UniqueRows(i) && TablesAgree(i.exchange.bindings, ContextOf(i).tools)
               && MergeAll(ops, ContextOf(i)) == Ok(so)
    ensures |so.operations| == |ops|
    ensures forall k | 0 <= k < |ops| :: so.operations[k].op == ops[k] && FitsAll(so.operations[k], i)
  {
    MergedOneByOne(ops, ContextOf(i));
    forall k | 0 <= k < |ops| ensures so.operations[k].op == ops[k] && FitsAll(so.operations[k], i) {
      CheckedFitsAll(i, ops[k], so.operations[k]);
    }
  }

  /** The listing of a manifest: every supported operation once, in order. */
  ghost predicate Lists(operations: seq<Operation>, ops: seq<Op>) {
    |operations| == |ops| && forall k | 0 <= k < |ops| :: operations[k].op == ops[k]
  }

  /** A built manifest lists every supported operation once, in order, and each row
      agrees with every row of every source, save for the listed projections. */
  lemma {:induction false} BuiltManifestAgrees(i: Inputs)
    requires UniqueRows(i) && Build(i).Ok?
    ensures Lists(Build(i).value.operations, Sorted(AsSet(i.platform.supported)))
    ensures forall o | o in Build(i).value.operations :: FitsAll(o, i)
  {
    var so := BuildSteps(i);
    MergedFitsAll(i, Sorted(AsSet(i.platform.supported)), so);
  }

  /** No source states whether the operation mutates. */
  ghost predicate NobodyStates(i: Inputs, op: Op) {
    (forall r | r in i.exchange.tools :: r.op != op) && forall r | r in i.navigator.policies :: r.op != op
  }

  /** Exchange and Navigator give the operation different projections. */
  ghost predicate SourcesDisagree(i: Inputs, op: Op) {
    exists b, n | b in i.exchange.bindings && n in i.navigator.policies ::
      b.op == op && n.op == op && b.value.projection != n.value.projection
  }

  lemma {:induction false} UnresolvedMeansNobodyStates(i: Inputs, op: Op)
    requires UniqueRows(i) && op in ContextOf(i).pairs
    ensures Unresolved(op, ContextOf(i)) <==> NobodyStates(i, op)
  {
    IndexHasTheOperations(i.exchange.tools, op);
    IndexHasTheOperations(i.navigator.policies, op);
  }

  lemma {:induction false} DisagreementIsBetweenSources(i: Inputs, op: Op)
    requires UniqueRows(i) && Check(op, ContextOf(i), AnyRow(At(ContextOf(i).policies, op))) == None
    ensures Disagrees(op, ContextOf(i)) <==> SourcesDisagree(i, op)
  {
    var c := ContextOf(i);
    var bindings, policies := At(c.bindings, op), At(c.policies, op);
    TableOfRows(i.exchange.bindings, op);
    TableOfRows(i.navigator.policies, op);
    if Disagrees(op, c) {
      var p :| p in bindings && bindings[p].projection != AnyRow(policies).value.projection;
      var q :| q in policies && policies[q] == AnyRow(policies).value;
      assert Row(op, p, bindings[p]) in i.exchange.bindings && Row(op, q, policies[q]) in i.navigator.policies;
    }
    if SourcesDisagree(i, op) {
      var b, n :| b in i.exchange.bindings && n in i.navigator.policies &&
        b.op == op && n.op == op && b.value.projection != n.value.projection;
      assert policies[n.provider] == n.value && bindings[b.provider] == b.value;
    }
  }

  /** When the build succeeds, the supported operations whose mutation no source states
      are exactly the listed ones, and so are those whose projections differ. */
  lemma {:induction false} ExceptionsAreExact(i: Inputs)
    requires UniqueRows(i) && Build(i).Ok?
    ensures forall op | op in i.platform.supported :: NobodyStates(i, op) <==> op in UNRESOLVED_MUTATING
    ensures forall op | op in i.platform.supported :: SourcesDisagree(i, op) <==> op in KNOWN_PROJECTION_DISAGREEMENTS
    ensures UNRESOLVED_MUTATING + KNOWN_PROJECTION_DISAGREEMENTS <= AsSet(i.platform.supported)
  {
    var so := BuildSteps(i);
    GatheredExceptionsAreExact(i, Sorted(AsSet(i.platform.supported)));
  }

  lemma {:induction false} GatheredExceptionsAreExact(i: Inputs, ops: seq<Op>)
    requires UniqueRows(i) && MergeAll(ops, ContextOf(i)).Ok?
    requires MergeAll(ops, ContextOf(i)).value.unresolved == UNRESOLVED_MUTATING
    requires MergeAll(ops, ContextOf(i)).value.projections == KNOWN_PROJECTION_DISAGREEMENTS
    ensures forall op | op in ops :: NobodyStates(i, op) <==> op in UNRESOLVED_MUTATING
    ensures forall op | op in ops :: SourcesDisagree(i, op) <==> op in KNOWN_PROJECTION_DISAGREEMENTS
    ensures forall op | op in UNRESOLVED_MUTATING || op in KNOWN_PROJECTION_DISAGREEMENTS :: op in ops
  {
    ExceptionsGathered(ops, ContextOf(i));
    forall op | op in ops
      ensures NobodyStates(i, op) <==> op in UNRESOLVED_MUTATING
      ensures SourcesDisagree(i, op) <==> op in KNOWN_PROJECTION_DISAGREEMENTS
    {
      SupportedIsChecked(ops, ContextOf(i), op);
      UnresolvedMeansNobodyStates(i, op);
      DisagreementIsBetweenSources(i, op);
    }
  }

  lemma {:induction false} SupportedIsChecked(ops: seq<Op>, c: Context, op: Op)
    requires MergeAll(ops, c).Ok? && op in ops
    ensures op in c.pairs && Check(op, c, AnyRow(At(c.policies, op))) == None
  {
    MergedOneByOne(ops, c);
    var k :| 0 <= k < |ops| && ops[k] == op;
    assert Merged(ops[k], c, MergeAll(ops, c).value.operations[k]);
  }

  // ---- The rest of the manifest ------------------------------------------

  /** An operation that Exchange maps although Platform supports it nowhere. */
  ghost predicate IsExchangeOnly(i: Inputs, e: ExchangeOnly) {
    && e.op !in i.platform.supported && e.tools != map[] && e.mutating == (e.op in i.exchange.mutating)
    && (forall r | r in i.platform.pairs && r.op == e.op :: !r.value.supported)
    && (forall r | r in i.exchange.tools && r.op == e.op :: r.provider in e.tools && e.tools[r.provider] == r.value)
    && (forall p | p in e.tools :: Row(e.op, p, e.tools[p]) in i.exchange.tools)
  }

  lemma {:induction false} ExchangeOnlyOneByOne(ops: seq<Op>, c: Context)
    requires ExchangeOnlyRows(ops, c).Ok?
    ensures |ExchangeOnlyRows(ops, c).value| == |ops|
    ensures forall k | 0 <= k < |ops| ::
              && ops[k] in c.pairs && Providers(c.pairs[ops[k]]) == {}
              && ExchangeOnlyRows(ops, c).value[k] == ExchangeOnly(ops[k], ops[k] in c.mutating, At(c.tools, ops[k]))
  {
    if ops != [] {
      ExchangeOnlyOneByOne(ops[..|ops| - 1], c);
    }
  }

  lemma {:induction false} UnsupportedRows(i: Inputs, op: Op)
    requires UniqueRows(i) && op in ContextOf(i).tools && op !in i.platform.supported
    requires op in ContextOf(i).pairs && Providers(ContextOf(i).pairs[op]) == {}
    ensures IsExchangeOnly(i, ExchangeOnly(op, op in i.exchange.mutating, At(ContextOf(i).tools, op)))
  {
    var pairs := At(Index(i.platform.pairs), op);
    TableOfRows(i.platform.pairs, op);
    TableOfRows(i.exchange.tools, op);
    IndexHasTheOperations(i.exchange.tools, op);
    forall r | r in i.platform.pairs && r.op == op ensures !r.value.supported {
      assert r.provider in pairs && pairs[r.provider] == r.value;
      assert r.provider !in Providers(pairs);
    }
  }

  ghost predicate OnlyExact(i: Inputs, only: seq<ExchangeOnly>) {
    && (forall e | e in only :: IsExchangeOnly(i, e))
    && forall r | r in i.exchange.tools && r.op !in i.platform.supported ::
         exists e | e in only :: e.op == r.op && r.provider in e.tools && e.tools[r.provider] == r.value
  }

  lemma {:induction false} ExchangeOnlyIsExact(i: Inputs, ops: seq<Op>, only: seq<ExchangeOnly>)
    requires UniqueRows(i) && ExchangeOnlyRows(ops, ContextOf(i)) == Ok(only)
    requires forall op :: op in ops <==> op in ContextOf(i).tools && op !in i.platform.supported
    ensures OnlyExact(i, only)
  {
    ExchangeOnlyOneByOne(ops, ContextOf(i));
    forall k | 0 <= k < |ops| ensures IsExchangeOnly(i, only[k]) && only[k].op == ops[k] {
      assert ops[k] in ops;
      UnsupportedRows(i, ops[k]);
    }
    forall r | r in i.exchange.tools && r.op !in i.platform.supported
      ensures exists e | e in only :: e.op == r.op && r.provider in e.tools && e.tools[r.provider] == r.value
    {
      IndexHasTheOperations(i.exchange.tools, r.op);
      assert r.op in ops;
      var k :| 0 <= k < |ops| && ops[k] == r.op;
      assert IsExchangeOnly(i, only[k]) && only[k] in only;
    }
  }

  /** Every mapping of Exchange is in the manifest: with its operation if Platform
      supports that, and otherwise in one of the remaining entries, which are exact. */
  lemma {:induction false} BuiltManifestIsComplete(i: Inputs)
    requires UniqueRows(i) && Build(i).Ok?
    ensures OnlyExact(i, Build(i).value.exchangeOnly)
  {
    var so := BuildSteps(i);
    FinishKeepsTheRest(i, ContextOf(i), Remaining(i), so);
    ExchangeOnlyIsExact(i, Remaining(i), Build(i).value.exchangeOnly);
  }

  lemma {:induction false} FinishKeepsTheRest(i: Inputs, c: Context, remaining: seq<Op>, so: Progress)
    requires Finish(i, c, remaining, so).Ok?
    ensures ExchangeOnlyRows(remaining, c) == Ok(Finish(i, c, remaining, so).value.exchangeOnly)
  {
  }

  /** The provider list names the providers of the operations, and states an outer
      claim exactly for those Navigator answers for. */
  ghost predicate ProvidersFit(m: Manifest, i: Inputs) {
    && m.roles == i.platform.roles && m.outerClaims.Keys == ProviderIds(m.operations)
    && BoundProviders(i.navigator.policies) <= m.outerClaims.Keys * i.navigator.outerClaim.Keys
    && forall p | p in m.outerClaims ::
         m.outerClaims[p] == if p in BoundProviders(i.navigator.policies) && p in i.navigator.outerClaim
                             then Some(i.navigator.outerClaim[p]) else None
  }

  lemma {:induction false} FinishedProviders(i: Inputs, c: Context, remaining: seq<Op>, so: Progress)
    requires Finish(i, c, remaining, so).Ok?
    ensures ProvidersFit(Finish(i, c, remaining, so).value, i)
  {
  }

  lemma {:induction false} BuiltProviders(i: Inputs)
    requires Build(i).Ok?
    ensures ProvidersFit(Build(i).value, i)
  {
    var so := BuildSteps(i);
    FinishedProviders(i, ContextOf(i), Remaining(i), so);
  }
}
