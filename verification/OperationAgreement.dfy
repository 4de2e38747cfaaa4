/** Exactly when the four dumps merge: the build succeeds if and only if the rows of all
    sources agree. */
module OperationAgreement {
  import opened Wrappers
  import opened OperationMerge

  // ---- Rows and tables ---------------------------------------------------

  /** Platform supports the operation at the provider. */
  ghost predicate SupportedAt(pairs: seq<Row<Pair>>, op: Op, p: Provider) {
    exists r | r in pairs :: r.op == op && r.provider == p && r.value.supported
  }

  lemma {:induction false} ProvidersExactly(pairs: seq<Row<Pair>>, op: Op)
    requires Unique(pairs)
    ensures forall p :: p in Providers(At(Index(pairs), op)) <==> SupportedAt(pairs, op, p)
  {
    TableOfRows(pairs, op);
    var table := At(Index(pairs), op);
    forall p | p in Providers(table) ensures SupportedAt(pairs, op, p) {
      assert Row(op, p, table[p]) in pairs;
    }
  }

  lemma {:induction false} HoldsExactly<V>(rows: seq<Row<V>>, r: Row<V>)
    requires Unique(rows)
    ensures Holds(Index(rows), r) <==> r in rows
  {
    IndexHoldsTheRows(rows, r);
  }

  // ---- The policy --------------------------------------------------------

  ghost predicate ListsPair(section: seq<PolicyRow>, op: Op, p: Provider) {
    exists row | row in section :: row.op == op && p in row.providers
  }

  /** Platform puts the supported operation in a catalog at the provider. */
  ghost predicate InCatalog(i: Inputs, field: Pair -> bool, op: Op, p: Provider) {
    op in i.platform.supported && exists r | r in i.platform.pairs :: r.op == op && r.provider == p && field(r.value)
  }

  ghost predicate SectionFits(section: seq<PolicyRow>, i: Inputs, field: Pair -> bool) {
    forall op, p :: ListsPair(section, op, p) <==> InCatalog(i, field, op, p)
  }

  /** The providers of a policy row are those that Platform supports, once each. */
  ghost predicate RowFits(row: PolicyRow, pairs: seq<Row<Pair>>) {
    NoDuplicates(row.providers) && forall p :: p in row.providers <==> SupportedAt(pairs, row.op, p)
  }

  /** The policy says of roles, operations and catalogs what Platform's code says. */
  ghost predicate PolicyFits(i: Inputs) {
    var roles, policy := i.platform.roles, i.policy;
    && "operator" in roles && roles["operator"] == policy.operatorRole
    && "automationViewer" in roles && roles["automationViewer"] == policy.readOnlyRole
    && "officeTaskWriter" in roles && roles["officeTaskWriter"] == policy.taskWriterRole
    && OpsDiffer(policy.operations)
    && (forall op :: op in i.platform.supported <==> exists row | row in policy.operations :: row.op == op)
    && (forall row | row in policy.operations :: RowFits(row, i.platform.pairs))
    && SectionFits(policy.readOnly, i, (p: Pair) => p.viewer)
    && SectionFits(policy.taskWriter, i, (p: Pair) => p.writer)
    && SectionFits(policy.transport, i, (p: Pair) => p.transport)
  }

  function Ops(rows: seq<PolicyRow>): set<Op> {
    set row | row in rows :: row.op
  }

  ghost predicate OpsDiffer(rows: seq<PolicyRow>) {
    forall a, b | 0 <= a < b < |rows| :: rows[a].op != rows[b].op
  }

  lemma {:induction false} LastOpDiffers(before: seq<PolicyRow>, last: PolicyRow)
    ensures OpsDiffer(before + [last]) <==> OpsDiffer(before) && last.op !in Ops(before)
  {
    var rows := before + [last];
    assert rows[|before|] == last && forall a | 0 <= a < |before| :: rows[a] == before[a] && before[a] in before;
    if last.op in Ops(before) {
      var row :| row in before && row.op == last.op;
      var a :| 0 <= a < |before| && before[a] == row;
      assert rows[a].op == rows[|before|].op;
    }
  }

  lemma {:induction false} AsManyOps(rows: seq<PolicyRow>)
    ensures |Ops(rows)| <= |rows|
    ensures |Ops(rows)| == |rows| <==> OpsDiffer(rows)
  {
    if rows != [] {
      var before, last := rows[..|rows| - 1], rows[|rows| - 1];
      AsManyOps(before);
      assert forall row :: row in rows <==> row in before || row == last;
      assert Ops(rows) == Ops(before) + {last.op};
      LastOpDiffers(before, last);
      assert before + [last] == rows;
    }
  }

  lemma {:induction false} DeclaredAreOps(rows: seq<PolicyRow>)
    ensures DeclaredOperations(Declarations(rows)) == Ops(rows)
  {
    forall op | op in Ops(rows) ensures op in DeclaredOperations(Declarations(rows)) {
      var row :| row in rows && row.op == op;
      assert (row.op, multiset(row.providers)) in Declarations(rows);
    }
  }

  lemma {:induction false} OnceEach<T>(s: seq<T>, t: set<T>)
    ensures multiset(s) == multiset(t) <==> NoDuplicates(s) && forall x :: x in s <==> x in t
  {
    if s == [] {
      NothingOnce(t);
    } else {
      var before, last := s[..|s| - 1], s[|s| - 1];
      OnceEach(before, t - {last});
      OnceMore(before, last, t);
      assert s == before + [last];
    }
  }

  lemma {:induction false} NothingOnce<T>(t: set<T>)
    ensures multiset([]) == multiset(t) <==> t == {}
  {
    if t != {} {
      var x :| x in t;
      assert x in multiset(t);
    }
  }

  lemma {:induction false} OnceMore<T>(before: seq<T>, last: T, t: set<T>)
    ensures multiset(before + [last]) == multiset(t) <==> last in t && multiset(before) == multiset(t - {last})
    ensures NoDuplicates(before + [last]) <==> NoDuplicates(before) && last !in before
  {
    var s := before + [last];
    assert multiset(s) == multiset(before) + multiset{last};
    assert s[|before|] == last && forall a | 0 <= a < |before| :: s[a] == before[a] && before[a] in before;
    if last in t {
      assert multiset(t) == multiset(t - {last}) + multiset{last};
      if multiset(s) == multiset(t) {
        assert multiset(before) == multiset(s) - multiset{last} == multiset(t - {last});
      }
    } else {
      assert last in multiset(s);
    }
  }

  lemma {:induction false} RowFitsExactly(row: PolicyRow, pairs: seq<Row<Pair>>)
    requires Unique(pairs)
    ensures multiset(row.providers) == multiset(Providers(At(Index(pairs), row.op))) <==> RowFits(row, pairs)
  {
    ProvidersExactly(pairs, row.op);
    OnceEach(row.providers, Providers(At(Index(pairs), row.op)));
  }

  lemma {:induction false} SectionFitsExactly(section: seq<PolicyRow>, i: Inputs, field: Pair -> bool)
    requires Unique(i.platform.pairs)
    ensures CatalogAgrees(ListedPairs(section), Index(i.platform.pairs), AsSet(i.platform.supported), field) <==>
              SectionFits(section, i, field)
  {
    var pairs, supported, listed := Index(i.platform.pairs), AsSet(i.platform.supported), ListedPairs(section);
    forall op, p
      ensures (op, p) in listed <==> ListsPair(section, op, p)
      ensures op in supported && op in pairs && p in pairs[op] && field(pairs[op][p]) <==> InCatalog(i, field, op, p)
    {
      TableOfRows(i.platform.pairs, op);
      IndexHasTheOperations(i.platform.pairs, op);
      if op in pairs && p in pairs[op] {
        assert Row(op, p, pairs[op][p]) in i.platform.pairs;
      }
    }
    assert forall x | x in listed :: x == (x.0, x.1);
  }

  lemma {:induction false} RowsFitExactly(i: Inputs)
    requires Unique(i.platform.pairs) && Ops(i.policy.operations) <= Index(i.platform.pairs).Keys
    ensures
      var pairs := Index(i.platform.pairs);
      (forall d | d in Declarations(i.policy.operations) :: d.0 in pairs && d.1 == multiset(Providers(pairs[d.0]))) <==>
      (forall row | row in i.policy.operations :: RowFits(row, i.platform.pairs))
  {
    var pairs, rows := Index(i.platform.pairs), i.policy.operations;
    forall row | row in rows
      ensures row.op in pairs && (multiset(row.providers) == multiset(Providers(pairs[row.op])) <==>
                RowFits(row, i.platform.pairs))
      ensures (row.op, multiset(row.providers)) in Declarations(rows)
    {
      assert row.op in Ops(rows);
      RowFitsExactly(row, i.platform.pairs);
    }
  }

  /** The policy check passes exactly when the policy fits. */
  lemma {:induction false} PolicyFitsExactly(i: Inputs)
    requires Unique(i.platform.pairs) && AsSet(i.platform.supported) <= Index(i.platform.pairs).Keys
    ensures PolicyAgrees(i.policy, Index(i.platform.pairs), AsSet(i.platform.supported), i.platform.roles) <==>
              PolicyFits(i)
  {
    var rows := i.policy.operations;
    AsManyOps(rows);
    DeclaredAreOps(rows);
    SectionFitsExactly(i.policy.readOnly, i, (p: Pair) => p.viewer);
    SectionFitsExactly(i.policy.taskWriter, i, (p: Pair) => p.writer);
    SectionFitsExactly(i.policy.transport, i, (p: Pair) => p.transport);
    SupportedAreOps(i);
    if Ops(rows) == AsSet(i.platform.supported) {
      RowsFitExactly(i);
    }
  }

  lemma {:induction false} SupportedAreOps(i: Inputs)
    ensures Ops(i.policy.operations) == AsSet(i.platform.supported) <==>
              forall op :: op in i.platform.supported <==> exists row | row in i.policy.operations :: row.op == op
  {
    var ops, supported := Ops(i.policy.operations), AsSet(i.platform.supported);
    assert forall op :: op in ops <==> exists row | row in i.policy.operations :: row.op == op;
    assert forall op :: op in supported <==> op in i.platform.supported;
  }

  // ---- One operation -----------------------------------------------------

  /** A row of the manifest can be written for the operation: it agrees with every source,
      and where nobody states whether it mutates, the operation is a listed exception
      whose scope is not locked. */
  ghost predicate CanBeListed(i: Inputs, op: Op, o: Operation) {
    && o.op == op && FitsAll(o, i)
    && (NobodyStates(i, op) ==> op in UNRESOLVED_MUTATING && op !in i.navigator.scopeLocks)
  }

  lemma {:induction false} CheckedCanBeListed(i: Inputs, op: Op)
    requires UniqueRows(i) && TablesAgree(i.exchange.bindings, ContextOf(i).tools)
    requires Check(op, ContextOf(i), AnyRow(At(ContextOf(i).policies, op))) == None
    ensures exists o :: CanBeListed(i, op, o)
  {
    var c := ContextOf(i);
    var o := OperationOf(op, c, AnyRow(At(c.policies, op)));
    CheckedFitsAll(i, op, o);
    StatedExactly(i, op);
    assert CanBeListed(i, op, o);
  }

  lemma {:induction false} StatedExactly(i: Inputs, op: Op)
    requires UniqueRows(i)
    ensures NobodyStates(i, op) <==> At(ContextOf(i).tools, op) == map[] && At(ContextOf(i).policies, op) == map[]
  {
    IndexHasTheOperations(i.exchange.tools, op);
    IndexHasTheOperations(i.navigator.policies, op);
  }

  /** The tables of one operation. */
  ghost predicate TablesFit(i: Inputs, op: Op, o: Operation) {
    var c := ContextOf(i);
    var rows, tools, bindings, policies := At(c.pairs, op), At(c.tools, op), At(c.bindings, op), At(c.policies, op);
    && op in c.pairs && Providers(rows) == o.providers != {}
    && (forall p | p in o.providers ::
          !rows[p].noRole && "operator" in rows[p].roles && rows[p].roles == o.roles)
    && (forall p | p in tools ::
          && p in o.providers && o.mutating == Some(op in c.mutating)
          && (o.navigator.Some? ==> tools[p] == o.navigator.value.tool))
    && (forall p | p in bindings ::
          && o.mutating == Some(bindings[p].mutating)
          && (o.navigator.Some? && op !in KNOWN_PROJECTION_DISAGREEMENTS ==>
                bindings[p].projection == o.navigator.value.projection))
    && (forall p | p in policies ::
          p in o.providers && o.navigator == Some(policies[p]) && o.mutating == Some(policies[p].mutating))
    && (o.navigator.Some? ==> forall p | p in o.providers :: p in policies)
    && (op in c.scopeLocks ==> o.mutating == Some(true))
  }

  lemma {:induction false} FittingTables(i: Inputs, op: Op, o: Operation)
    requires UniqueRows(i) && o.op == op && FitsAll(o, i)
    ensures TablesFit(i, op, o)
  {
    TableOfRows(i.platform.pairs, op);
    TableOfRows(i.exchange.tools, op);
    TableOfRows(i.exchange.bindings, op);
    TableOfRows(i.navigator.policies, op);
    IndexHasTheOperations(i.platform.pairs, op);
    var rows := At(Index(i.platform.pairs), op);
    ProvidersExactly(i.platform.pairs, op);
    forall p ensures p in Providers(rows) <==> p in o.providers {
    }
  }

  lemma {:induction false} FittingIsChecked(i: Inputs, op: Op, o: Operation)
    requires TablesFit(i, op, o)
    requires
      var c := ContextOf(i);
      At(c.tools, op) == map[] && At(c.policies, op) == map[] ==>
        op in UNRESOLVED_MUTATING && op !in c.scopeLocks && At(c.bindings, op) == map[]
    ensures Check(op, ContextOf(i), AnyRow(At(ContextOf(i).policies, op))) == None
  {
    var c := ContextOf(i);
    var rows, tools, bindings, policies := At(c.pairs, op), At(c.tools, op), At(c.bindings, op), At(c.policies, op);
    var row := AnyRow(policies);
    HasAMember(o.providers);
    if policies != map[] {
      assert row == o.navigator;
      assert policies.Keys == o.providers;
    }
    assert row == o.navigator;
    MutationIsStated(op, c, o, row);
  }

  lemma {:induction false} HasAMember(providers: set<Provider>)
    requires providers != {}
    ensures exists p :: p in providers
  {
  }

  lemma {:induction false} MutationIsStated(op: Op, c: Context, o: Operation, row: Option<NavigatorRow>)
    requires row == o.navigator
    requires forall p | p in At(c.tools, op) :: o.mutating == Some(op in c.mutating)
    requires row.Some? ==> o.mutating == Some(row.value.mutating)
    ensures At(c.tools, op) != map[] || row.Some? ==> Mutation(op, At(c.tools, op), c.mutating, row) == o.mutating
    ensures At(c.tools, op) == map[] && row.None? ==> Mutation(op, At(c.tools, op), c.mutating, row) == None
  {
    if At(c.tools, op) != map[] {
      assert At(c.tools, op).Keys != {};
      var p :| p in At(c.tools, op);
    }
  }

  lemma {:induction false} BindingsAreMapped(i: Inputs, op: Op)
    requires UniqueRows(i) && TablesAgree(i.exchange.bindings, ContextOf(i).tools)
    ensures At(ContextOf(i).tools, op) == map[] ==> At(ContextOf(i).bindings, op) == map[]
  {
    var bindings := At(ContextOf(i).bindings, op);
    TableOfRows(i.exchange.bindings, op);
    if bindings != map[] {
      assert bindings.Keys != {};
      var p :| p in bindings;
      assert Row(op, p, bindings[p]) in i.exchange.bindings;
    }
  }

  /** One operation passes its turn exactly when a row can be written for it. */
  lemma {:induction false} CheckPassesExactly(i: Inputs, op: Op)
    requires UniqueRows(i) && TablesAgree(i.exchange.bindings, ContextOf(i).tools)
    ensures Check(op, ContextOf(i), AnyRow(At(ContextOf(i).policies, op))) == None <==>
              exists o :: CanBeListed(i, op, o)
  {
    if Check(op, ContextOf(i), AnyRow(At(ContextOf(i).policies, op))) == None {
      CheckedCanBeListed(i, op);
    }
    if o :| CanBeListed(i, op, o) {
      FittingTables(i, op, o);
      StatedExactly(i, op);
      BindingsAreMapped(i, op);
      FittingIsChecked(i, op, o);
    }
  }

  // ---- The whole build ---------------------------------------------------

  lemma {:induction false} MergesExactly(ops: seq<Op>, c: Context)
    ensures MergeAll(ops, c).Ok? <==> forall k | 0 <= k < |ops| ::
              Check(ops[k], c, AnyRow(At(c.policies, ops[k]))) == None
  {
    if ops != [] {
      var before := ops[..|ops| - 1];
      MergesExactly(before, c);
      assert forall k | 0 <= k < |before| :: before[k] == ops[k];
    }
  }

  ghost predicate AllListed(i: Inputs) {
    forall op | op in i.platform.supported :: exists o :: CanBeListed(i, op, o)
  }

  lemma {:induction false} LoopPassesExactly(i: Inputs)
    requires UniqueRows(i) && TablesAgree(i.exchange.bindings, ContextOf(i).tools)
    ensures MergeAll(Sorted(AsSet(i.platform.supported)), ContextOf(i)).Ok? <==> AllListed(i)
  {
    var ops, c := Sorted(AsSet(i.platform.supported)), ContextOf(i);
    MergesExactly(ops, c);
    if MergeAll(ops, c).Ok? {
      forall op | op in i.platform.supported ensures exists o :: CanBeListed(i, op, o) {
        assert op in ops;
        var k :| 0 <= k < |ops| && ops[k] == op;
        CheckPassesExactly(i, ops[k]);
      }
    }
    if AllListed(i) {
      forall k | 0 <= k < |ops| ensures Check(ops[k], c, AnyRow(At(c.policies, ops[k]))) == None {
        assert ops[k] in ops;
        CheckPassesExactly(i, ops[k]);
      }
    }
  }

  /** Both exceptions are needed, and no others. */
  ghost predicate ExceptionsFit(i: Inputs) {
    && (forall op | op in i.platform.supported :: NobodyStates(i, op) <==> op in UNRESOLVED_MUTATING)
    && (forall op | op in i.platform.supported :: SourcesDisagree(i, op) <==> op in KNOWN_PROJECTION_DISAGREEMENTS)
    && UNRESOLVED_MUTATING + KNOWN_PROJECTION_DISAGREEMENTS <= AsSet(i.platform.supported)
  }

  lemma {:induction false} ExceptionsFitExactly(i: Inputs, ops: seq<Op>)
    requires UniqueRows(i) && MergeAll(ops, ContextOf(i)).Ok?
    requires forall op :: op in ops <==> op in i.platform.supported
    ensures
      var so := MergeAll(ops, ContextOf(i)).value;
      so.unresolved == UNRESOLVED_MUTATING && so.projections == KNOWN_PROJECTION_DISAGREEMENTS <==> ExceptionsFit(i)
  {
    var c, so := ContextOf(i), MergeAll(ops, ContextOf(i)).value;
    ExceptionsGathered(ops, c);
    forall op | op in i.platform.supported
      ensures op in so.unresolved <==> NobodyStates(i, op)
      ensures op in so.projections <==> SourcesDisagree(i, op)
    {
      SupportedIsChecked(ops, c, op);
      UnresolvedMeansNobodyStates(i, op);
      DisagreementIsBetweenSources(i, op);
    }
    assert so.unresolved <= AsSet(i.platform.supported) && so.projections <= AsSet(i.platform.supported);
  }

  /** Platform has rows for what Exchange maps, and lists everything it supports of it. */
  ghost predicate NothingUnlisted(i: Inputs) {
    forall t | t in i.exchange.tools && t.op !in i.platform.supported ::
      && (exists r | r in i.platform.pairs :: r.op == t.op)
      && forall r | r in i.platform.pairs && r.op == t.op :: !r.value.supported
  }

  lemma {:induction false} OnlyRowsExactly(ops: seq<Op>, c: Context)
    ensures ExchangeOnlyRows(ops, c).Ok? <==>
              forall k | 0 <= k < |ops| :: ops[k] in c.pairs && Providers(c.pairs[ops[k]]) == {}
  {
    if ops != [] {
      var before := ops[..|ops| - 1];
      OnlyRowsExactly(before, c);
      assert forall k | 0 <= k < |before| :: before[k] == ops[k];
    }
  }

  ghost predicate Unlisted(i: Inputs, op: Op) {
    && (exists r | r in i.platform.pairs :: r.op == op)
    && forall r | r in i.platform.pairs && r.op == op :: !r.value.supported
  }

  lemma {:induction false} UnlistedExactly(i: Inputs, op: Op)
    requires Unique(i.platform.pairs)
    ensures op in Index(i.platform.pairs) && Providers(Index(i.platform.pairs)[op]) == {} <==> Unlisted(i, op)
  {
    ProvidersExactly(i.platform.pairs, op);
    IndexHasTheOperations(i.platform.pairs, op);
    var rows := At(Index(i.platform.pairs), op);
    if op in Index(i.platform.pairs) && Providers(rows) == {} {
      forall r | r in i.platform.pairs && r.op == op ensures !r.value.supported {
        assert !SupportedAt(i.platform.pairs, op, r.provider);
      }
    }
    if Unlisted(i, op) {
      assert forall p :: !SupportedAt(i.platform.pairs, op, p);
    }
  }

  lemma {:induction false} NothingUnlistedExactly(i: Inputs)
    requires UniqueRows(i)
    ensures ExchangeOnlyRows(Remaining(i), ContextOf(i)).Ok? <==> NothingUnlisted(i)
  {
    var ops, c := Remaining(i), ContextOf(i);
    OnlyRowsExactly(ops, c);
    forall op ensures op in c.pairs && Providers(c.pairs[op]) == {} <==> Unlisted(i, op) {
      UnlistedExactly(i, op);
    }
    forall op ensures op in ops <==> op !in i.platform.supported && exists t | t in i.exchange.tools :: t.op == op {
      IndexHasTheOperations(i.exchange.tools, op);
    }
    if ExchangeOnlyRows(ops, c).Ok? {
      forall t | t in i.exchange.tools && t.op !in i.platform.supported ensures Unlisted(i, t.op) {
        assert t.op in ops;
        var k :| 0 <= k < |ops| && ops[k] == t.op;
      }
    }
    if NothingUnlisted(i) {
      forall k | 0 <= k < |ops| ensures Unlisted(i, ops[k]) {
        assert ops[k] in ops;
      }
    }
  }

  /** Exchange's two tables name the same tools. */
  ghost predicate BindingsFit(i: Inputs) {
    forall b | b in i.exchange.bindings :: Row(b.op, b.provider, b.value.tool) in i.exchange.tools
  }

  lemma {:induction false} BindingsFitExactly(i: Inputs)
    requires UniqueRows(i)
    ensures TablesAgree(i.exchange.bindings, ContextOf(i).tools) <==> BindingsFit(i)
  {
    forall b | b in i.exchange.bindings
      ensures Holds(ContextOf(i).tools, Row(b.op, b.provider, b.value.tool)) <==>
              Row(b.op, b.provider, b.value.tool) in i.exchange.tools
    {
      HoldsExactly(i.exchange.tools, Row(b.op, b.provider, b.value.tool));
    }
  }

  /** All sources agree, on the rows as they are dumped. */
  ghost predicate SourcesAgree(i: Inputs) {
    && NoDuplicates(i.platform.supported) && PolicyFits(i) && BindingsFit(i)
    && !i.navigator.locksOutsideGithub
    && (forall r | r in i.navigator.policies :: r.op in i.platform.supported && r.provider in i.navigator.outerClaim)
    && AllListed(i) && ExceptionsFit(i) && NothingUnlisted(i)
  }

  lemma {:induction false} AsManyAsListed(s: seq<Op>)
    ensures |AsSet(s)| <= |s|
    ensures |AsSet(s)| == |s| <==> NoDuplicates(s)
  {
    if s != [] {
      var before, last := s[..|s| - 1], s[|s| - 1];
      AsManyAsListed(before);
      assert AsSet(s) == AsSet(before) + {last};
      assert forall a | 0 <= a < |before| :: before[a] == s[a] && before[a] in before;
      if last in before {
        var a :| 0 <= a < |before| && before[a] == last;
        assert s[a] == s[|s| - 1];
      }
    }
  }

  lemma {:induction false} ListedHavePairs(i: Inputs)
    requires AllListed(i)
    ensures AsSet(i.platform.supported) <= Index(i.platform.pairs).Keys
  {
    forall op | op in i.platform.supported ensures op in Index(i.platform.pairs) {
      var o :| CanBeListed(i, op, o);
      IndexHasTheOperations(i.platform.pairs, op);
      HasAMember(o.providers);
    }
  }

  /** Nothing is objected to before the loop. */
  lemma {:induction false} NoObjectionExactly(i: Inputs)
    requires UniqueRows(i)
    ensures Objection(i, ContextOf(i)) == None <==>
              && NoDuplicates(i.platform.supported)
              && AsSet(i.platform.supported) <= Index(i.platform.pairs).Keys
              && PolicyFits(i) && BindingsFit(i) && !i.navigator.locksOutsideGithub
              && forall r | r in i.navigator.policies :: r.op in i.platform.supported
  {
    AsManyAsListed(i.platform.supported);
    BindingsFitExactly(i);
    if AsSet(i.platform.supported) <= Index(i.platform.pairs).Keys {
      PolicyFitsExactly(i);
    }
  }

  /** Every provider that Navigator names is one of a listed operation. */
  lemma {:induction false} BoundAreKnown(i: Inputs, so: Progress)
    requires UniqueRows(i) && TablesAgree(i.exchange.bindings, ContextOf(i).tools)
    requires MergeAll(Sorted(AsSet(i.platform.supported)), ContextOf(i)) == Ok(so)
    requires forall r | r in i.navigator.policies :: r.op in i.platform.supported
    ensures BoundProviders(i.navigator.policies) <= ProviderIds(so.operations)
  {
    var ops := Sorted(AsSet(i.platform.supported));
    MergedFitsAll(i, ops, so);
    forall p | p in BoundProviders(i.navigator.policies) ensures p in ProviderIds(so.operations) {
      var r :| r in i.navigator.policies && r.provider == p;
      assert r.op in ops;
      var k :| 0 <= k < |ops| && ops[k] == r.op;
      assert so.operations[k] in so.operations && FitsAll(so.operations[k], i);
    }
  }

  lemma {:induction false} FinishExactly(i: Inputs, so: Progress)
    requires UniqueRows(i) && BoundProviders(i.navigator.policies) <= ProviderIds(so.operations)
    ensures Finish(i, ContextOf(i), Remaining(i), so).Ok? <==>
              && so.unresolved == UNRESOLVED_MUTATING && so.projections == KNOWN_PROJECTION_DISAGREEMENTS
              && NothingUnlisted(i)
              && forall r | r in i.navigator.policies :: r.provider in i.navigator.outerClaim
  {
    NothingUnlistedExactly(i);
    assert BoundProviders(i.navigator.policies) <= i.navigator.outerClaim.Keys <==>
           forall r | r in i.navigator.policies :: r.provider in i.navigator.outerClaim;
  }

  lemma {:induction false} RestSucceedsExactly(i: Inputs)
    requires UniqueRows(i) && Objection(i, ContextOf(i)) == None
    ensures Build(i).Ok? <==>
              && AllListed(i) && ExceptionsFit(i) && NothingUnlisted(i)
              && forall r | r in i.navigator.policies :: r.provider in i.navigator.outerClaim
  {
    NoObjection(i, ContextOf(i));
    NoObjectionExactly(i);
    LoopPassesExactly(i);
    var merged := MergeAll(Sorted(AsSet(i.platform.supported)), ContextOf(i));
    BuildIsMergeAndFinish(i, merged);
    if merged.Ok? {
      MergedFinishesExactly(i, merged.value);
    }
  }

  lemma {:induction false} BuildIsMergeAndFinish(i: Inputs, merged: Result<Progress, Fault>)
    requires Objection(i, ContextOf(i)) == None
    requires merged == MergeAll(Sorted(AsSet(i.platform.supported)), ContextOf(i))
    ensures Build(i).Ok? <==> merged.Ok? && Finish(i, ContextOf(i), Remaining(i), merged.value).Ok?
  {
  }

  lemma {:induction false} MergedFinishesExactly(i: Inputs, so: Progress)
    requires UniqueRows(i) && TablesAgree(i.exchange.bindings, ContextOf(i).tools)
    requires MergeAll(Sorted(AsSet(i.platform.supported)), ContextOf(i)) == Ok(so)
    requires forall r | r in i.navigator.policies :: r.op in i.platform.supported
    ensures Finish(i, ContextOf(i), Remaining(i), so).Ok? <==>
              && ExceptionsFit(i) && NothingUnlisted(i)
              && forall r | r in i.navigator.policies :: r.provider in i.navigator.outerClaim
  {
    ExceptionsFitExactly(i, Sorted(AsSet(i.platform.supported)));
    BoundAreKnown(i, so);
    FinishExactly(i, so);
  }

  /** The build succeeds if and only if the sources agree. */
  lemma {:induction false} BuildSucceedsExactly(i: Inputs)
    requires UniqueRows(i)
    ensures Build(i).Ok? <==> SourcesAgree(i)
  {
    NoObjectionExactly(i);
    if AllListed(i) {
      ListedHavePairs(i);
    }
    if Objection(i, ContextOf(i)) == None {
      RestSucceedsExactly(i);
    }
  }
}
