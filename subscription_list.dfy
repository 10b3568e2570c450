/**
 The users list-table hooks: the column filters (`add_subscription_column`,
 `subscription_column_content`, `subscription_column_declare_sortable`),
 which are pure transforms of the value the host passes in, and the sort
 rewrite (`sort_by_subscription_date`), which changes the query object in
 place and is proved against the specification function `Rewritten`.
 */
module SubscriptionList {
  import opened UserMeta
  import opened UserQuery
  import opened SubscriptionSave

  /** The header shown for the subscription column. */
  const ColumnLabel: string := "CC Subscription"

  // ---------------------------------------------------------------------
  // Column filters

  /** `add_subscription_column`: the subscription column is registered with
      its label; every other column keeps its label. */
  function AddSubscriptionColumn(columns: map<string, string>): (r: map<string, string>)
    ensures r.Keys == columns.Keys + {SubscriptionKey}
    ensures r[SubscriptionKey] == ColumnLabel
    ensures forall c :: c in columns && c != SubscriptionKey ==> r[c] == columns[c]
  {
    columns[SubscriptionKey := ColumnLabel]
  }

  /** `subscription_column_declare_sortable`: the subscription column is
      sortable by its own key; every other sortable column is kept. */
  function DeclareSortable(columns: map<string, string>): (r: map<string, string>)
    ensures r.Keys == columns.Keys + {SubscriptionKey}
    ensures r[SubscriptionKey] == SubscriptionKey
    ensures forall c :: c in columns && c != SubscriptionKey ==> r[c] == columns[c]
  {
    columns[SubscriptionKey := SubscriptionKey]
  }

  lemma AddSubscriptionColumnIdempotent(columns: map<string, string>)
    ensures AddSubscriptionColumn(AddSubscriptionColumn(columns)) == AddSubscriptionColumn(columns)
  {
  }

  lemma DeclareSortableIdempotent(columns: map<string, string>)
    ensures DeclareSortable(DeclareSortable(columns)) == DeclareSortable(columns)
  {
  }

  /** `subscription_column_content`: the cell of the subscription column is
      the user's stored subscription ("" when none is stored); every other
      column's cell is passed through unchanged. */
  function SubscriptionColumnContent(e: Entries, value: string, columnName: string, userId: int): (r: string)
    ensures columnName != SubscriptionKey ==> r == value
    ensures columnName == SubscriptionKey && (userId, SubscriptionKey) in e ==> r == e[(userId, SubscriptionKey)]
    ensures columnName == SubscriptionKey && (userId, SubscriptionKey) !in e ==> r == ""
  {
    if columnName == SubscriptionKey then Get(e, userId, SubscriptionKey) else value
  }

  /** After a save with the capability, the listing shows what was submitted
      when it was non-empty, and a blank cell when it was empty and no empty
      value was stored before. */
  lemma SaveThenList(e: Entries, user: int, post: map<string, string>, value: string)
    requires NoEmptySubscription(e)
    ensures SubscriptionColumnContent(Saved(e, true, user, post), value, SubscriptionKey, user)
         == SubmittedValue(post, SubscriptionKey)
  {
    if SubscriptionKey in post && !IsEmpty(post[SubscriptionKey]) {
      SaveNonEmptySubmission(e, user, post);
    } else {
      SaveEmptySubmission(e, user, post);
      SaveKeepsNoEmptySubscription(e, true, user, post);
    }
  }

  // ---------------------------------------------------------------------
  // Sort rewrite

  /** Appended to `query_from`: joins every user row to its meta rows. */
  function JoinClause(db: Tables): string
  {
    " INNER JOIN " + db.usermeta + " ON ( " + db.users + ".ID = " + db.usermeta + ".user_id )"
  }

  /** Appended to `query_where`: keeps only the subscription meta rows. */
  function WhereClause(db: Tables): string
  {
    " AND " + db.usermeta + ".meta_key = 'cc_subscription'"
  }

  /** Replaces `query_orderby`: orders by the stored value in the requested
      direction, which is spliced in verbatim. */
  function OrderByClause(db: Tables, order: string): string
  {
    "ORDER BY " + db.usermeta + ".meta_value " + order
  }

  /** The rewrite fires only on the users screen when the listing is ordered
      by the subscription column. `screen` is the current admin screen's id,
      `None` when there is no current screen. */
  predicate Fires(s: Snapshot, screen: Option<string>)
  {
    screen == Some("users") && VarOf(s.vars, "orderby") == SubscriptionKey
  }

  /** The query after the sort hook. */
  function Rewritten(s: Snapshot, screen: Option<string>, db: Tables): Snapshot
  {
    if !Fires(s, screen) then s
    else
      Snapshot(
        s.vars["meta_key" := SubscriptionKey]["meta_compare" := "EXISTS"]["orderby" := "meta_value"],
        s.queryFrom + JoinClause(db),
        s.queryWhere + WhereClause(db),
        OrderByClause(db, VarOf(s.vars, "order")))
  }

  /** `sort_by_subscription_date`. `screen` stands for the global current
      screen and `db` for the global database handle's table names. */
  method SortBySubscriptionDate(query: Query, screen: Option<string>, db: Tables)
    modifies query
    ensures query.State() == Rewritten(old(query.State()), screen, db)
  {
    if screen != Some("users") {
      return;
    }
    var orderby := query.Get("orderby");
    if orderby == SubscriptionKey {
      var order := query.Get("order");
      query.Set("meta_key", SubscriptionKey);
      query.Set("meta_compare", "EXISTS");
      query.Set("orderby", "meta_value");
      query.queryFrom := query.queryFrom + JoinClause(db);
      query.queryWhere := query.queryWhere + WhereClause(db);
      query.queryOrderby := OrderByClause(db, order);
    }
  }

  /** The query is changed exactly when the guard holds. */
  lemma RewriteChangesIffFires(s: Snapshot, screen: Option<string>, db: Tables)
    ensures Rewritten(s, screen, db) != s <==> Fires(s, screen)
  {
  }

  /** When it fires: the join and the filter are appended, so the old FROM and
      WHERE fragments are prefixes of the new ones; the ORDER BY fragment is
      replaced whatever it held, and ends with the requested direction; the
      three query variables are set and every other one is kept. */
  lemma RewriteEffect(s: Snapshot, screen: Option<string>, db: Tables)
    requires Fires(s, screen)
    ensures var r := Rewritten(s, screen, db);
      && s.queryFrom <= r.queryFrom && r.queryFrom[|s.queryFrom|..] == JoinClause(db)
      && s.queryWhere <= r.queryWhere && r.queryWhere[|s.queryWhere|..] == WhereClause(db)
      && r.queryOrderby == "ORDER BY " + db.usermeta + ".meta_value " + VarOf(s.vars, "order")
      && VarOf(r.vars, "meta_key") == SubscriptionKey
      && VarOf(r.vars, "meta_compare") == "EXISTS"
      && VarOf(r.vars, "orderby") == "meta_value"
      && VarOf(r.vars, "order") == VarOf(s.vars, "order")
    ensures forall name :: name !in {"meta_key", "meta_compare", "orderby"} ==>
              VarOf(Rewritten(s, screen, db).vars, name) == VarOf(s.vars, name)
  {
  }

  /** A second rewrite leaves the query as the first one left it: the first
      one sets `orderby` to "meta_value", so the guard no longer holds. */
  lemma RewriteIdempotent(s: Snapshot, screen: Option<string>, db: Tables)
    ensures Rewritten(Rewritten(s, screen, db), screen, db) == Rewritten(s, screen, db)
  {
  }
}
