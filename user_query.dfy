/**
 The host platform's user-listing query object (`WP_User_Query`), reduced
 to what the plugin's sort hook reads and writes: the query variables and
 the three raw SQL fragments that are spliced into the final statement.
 */
module UserQuery {

  datatype Option<T> = None | Some(value: T)

  /** Table names from the database handle (`$wpdb->users`,
      `$wpdb->usermeta`); they carry the site's table prefix, so they are
      inputs rather than constants. */
  datatype Tables = Tables(users: string, usermeta: string)

  /** The part of a query object the sort hook can observe or change. */
  datatype Snapshot = Snapshot(
    vars: map<string, string>,
    queryFrom: string,
    queryWhere: string,
    queryOrderby: string)

  /** `$query->get(name)`: an unset variable reads as null, which compares
      unequal to every non-empty string and interpolates as "", so it is
      modelled as "". */
  function VarOf(vars: map<string, string>, name: string): string
  {
    if name in vars then vars[name] else ""
  }

  class Query {
    var queryVars: map<string, string>
    var queryFrom: string
    var queryWhere: string
    var queryOrderby: string

    constructor (vars: map<string, string>, from: string, where: string, orderby: string)
      ensures State() == Snapshot(vars, from, where, orderby)
    {
      queryVars := vars;
      queryFrom := from;
      queryWhere := where;
      queryOrderby := orderby;
    }

    function State(): Snapshot
      reads this
    {
      Snapshot(queryVars, queryFrom, queryWhere, queryOrderby)
    }

    /** `$query->get(name)` */
    function Get(name: string): string
      reads this
    {
      VarOf(queryVars, name)
    }

    /** `$query->set(name, value)`: changes that one variable only. */
    method Set(name: string, value: string)
      modifies this
      ensures State() == old(State()).(vars := old(queryVars)[name := value])
      ensures Get(name) == value
    {
      queryVars := queryVars[name := value];
    }
  }
}
