/** Global platform policy and its in-process cache (internal/settings/settings.go). */
module Settings {
  import opened Time
  import opened Wrappers

  /** A decoded JSON value, as far as anything here tells values apart. */
  datatype Json = Number(n: real) | Boolean(b: bool) | Other

  type Values = map<string, Json>

  /** platform_settings: a value that does not decode is `None`. */
  type Table = map<string, Option<Json>>

  datatype Row = Row(key: string, value: Option<Json>)

  const CACHE_TTL: int := MINUTE

  const DEFAULTS: Values := map[
    "sessionTimeoutMinutes" := Number(30.0),
    "sessionAbsoluteDays" := Number(30.0),
    "sessionRenewWithinDays" := Number(7.0),
    "maxFailedLogins" := Number(5.0),
    "lockoutWindowMinutes" := Number(10.0),
    "passwordMinLength" := Number(10.0),
    "requireMfaAdmin" := Boolean(true),
    "requireMfaCustomer" := Boolean(false),
    "ipAllowlistEnabled" := Boolean(false),
    "ssoJitProvisioning" := Boolean(false),
    "setupCompleted" := Boolean(false)]

  /** The policy a table stands for: its readable values for the known keys, defaults for the rest. */
  function Effective(table: Table): (m: Values)
    ensures m.Keys == DEFAULTS.Keys
  {
    map key | key in DEFAULTS :: if key in table && table[key].Some? then table[key].value else DEFAULTS[key]
  }

  /** One row read into the map being built. */
  function Overlaid(values: Values, row: Row): Values {
    if row.key !in DEFAULTS || row.value.None? then values else values[row.key := row.value.value]
  }

  /** All rows read in order. */
  function Overlay(values: Values, rows: seq<Row>): Values {
    if rows == [] then values else Overlaid(Overlay(values, rows[..|rows| - 1]), rows[|rows| - 1])
  }

  /** The rows of the table in some order, each once. */
  ghost predicate Lists(rows: seq<Row>, table: Table) {
    && (forall i :: 0 <= i < |rows| ==> rows[i].key in table && table[rows[i].key] == rows[i].value)
    && (forall key :: key in table ==> exists i :: 0 <= i < |rows| && rows[i].key == key)
    && (forall i, j :: 0 <= i < j < |rows| ==> rows[i].key != rows[j].key)
  }

  lemma {:induction false} OverlayAt(values: Values, rows: seq<Row>, table: Table, key: string)
    requires forall i :: 0 <= i < |rows| ==> rows[i].key in table && table[rows[i].key] == rows[i].value
    requires DEFAULTS.Keys <= values.Keys
    ensures Overlay(values, rows).Keys == values.Keys
    ensures key in values ==>
              Overlay(values, rows)[key] ==
                if key in DEFAULTS && (exists i :: 0 <= i < |rows| && rows[i].key == key) && table[key].Some?
                then table[key].value else values[key]
  {
    if rows != [] {
      var n := |rows| - 1;
      OverlayAt(values, rows[..n], table, key);
      assert forall i :: 0 <= i < n ==> rows[..n][i] == rows[i];
      assert (exists i :: 0 <= i < |rows| && rows[i].key == key)
         <==> rows[n].key == key || exists i :: 0 <= i < n && rows[..n][i].key == key;
    }
  }

  /** Whatever order the rows arrive in, the map built is the policy of the table. */
  lemma OverlayIsEffective(rows: seq<Row>, table: Table)
    requires Lists(rows, table)
    ensures Overlay(DEFAULTS, rows) == Effective(table)
  {
    var built := Overlay(DEFAULTS, rows);
    OverlayAt(DEFAULTS, rows, table, "");
    forall key | key in DEFAULTS ensures key in built && built[key] == Effective(table)[key] {
      OverlayAt(DEFAULTS, rows, table, key);
    }
  }

  /** A map as the original passes it around: by reference. */
  class GoMap {
    var m: Values

    constructor ()
      ensures m == map[]
    {
      m := map[];
    }
  }

  method Copy(source: Values) returns (out: GoMap)
    ensures fresh(out) && out.m == source
  {
    out := new GoMap();
    var keys := source.Keys;
    while keys != {}
      invariant keys <= source.Keys && fresh(out)
      invariant out.m.Keys == source.Keys - keys
      invariant forall key :: key in out.m ==> out.m[key] == source[key]
      decreases keys
    {
      var key :| key in keys;
      out.m := out.m[key := source[key]];
      keys := keys - {key};
    }
  }

  /** The defaults with the fetched rows written over them. */
  method Merge(rows: seq<Row>) returns (values: GoMap)
    ensures fresh(values) && values.m == Overlay(DEFAULTS, rows)
  {
    values := Copy(DEFAULTS);
    for i := 0 to |rows|
      invariant fresh(values) && values.m == Overlay(DEFAULTS, rows[..i])
    {
      assert rows[..i + 1][..i] == rows[..i];
      if rows[i].key !in DEFAULTS || rows[i].value.None? {
        continue;
      }
      values.m := values.m[rows[i].key := rows[i].value.value];
    }
    assert rows[..|rows|] == rows;
  }

  function Looked(values: Values, key: string): Option<Json> { if key in values then Some(values[key]) else None }

  /** Go's conversion drops the fraction; anything but a number counts as zero. */
  function ToInt(value: Option<Json>): (n: int) {
    match value
    case Some(Number(r)) => if r >= 0.0 then r.Floor else -(-r).Floor
    case _ => 0
  }

  function ToBool(value: Option<Json>): bool { value.Some? && value.value.Boolean? && value.value.b }

  datatype SettingsError = QueryFailed | UnknownKey(key: string)

  class Store {
    var cached: GoMap?
    var cachedAt: int

    ghost predicate Valid()
      reads this, cached
    {
      cached != null ==> cached.m.Keys == DEFAULTS.Keys
    }

    predicate Fresh(now: int)
      reads this
    {
      cached != null && now - cachedAt < CACHE_TTL
    }

    constructor ()
      ensures Valid() && cached == null
    {
      cached := null;
      cachedAt := 0;
    }

    /**
     * `fetched` is the listing the query would return, or `None` if it fails; `storedAt` is when the answer is
     * stored. The map handed out is a new object, never the cached one.
     */
    method All(now: int, fetched: Option<seq<Row>>, ghost table: Table, storedAt: int) returns (r: Result<GoMap, SettingsError>)
      requires Valid() && (fetched.Some? ==> Lists(fetched.value, table))
      modifies this
      ensures Valid()
      ensures r.Ok? ==> fresh(r.value) && r.value != cached && r.value.m.Keys == DEFAULTS.Keys
      ensures old(Fresh(now)) ==>
                r.Ok? && r.value.m == old(cached.m) && cached == old(cached) && cachedAt == old(cachedAt)
      ensures !old(Fresh(now)) && fetched.Some? ==>
                r.Ok? && r.value.m == Effective(table) && cached != null && fresh(cached) && cached.m == r.value.m
                && cachedAt == storedAt
                && forall key :: key in DEFAULTS ==>
                     r.value.m[key] == if key in table && table[key].Some? then table[key].value else DEFAULTS[key]
      ensures old(Fresh(now)) <==> old(cached) != null && now - old(cachedAt) < MINUTE
      ensures !old(Fresh(now)) && fetched.None? ==> r == Err(QueryFailed) && cached == old(cached) && cachedAt == old(cachedAt)
    {
      if cached != null && now - cachedAt < CACHE_TTL {
        var hit := Copy(cached.m);
        return Ok(hit);
      }
      if fetched.None? {
        return Err(QueryFailed);
      }
      var values := Merge(fetched.value);
      OverlayIsEffective(fetched.value, table);
      cached := values;
      cachedAt := storedAt;
      var out := Copy(values.m);
      return Ok(out);
    }

    method Int(key: string, now: int, fetched: Option<seq<Row>>, ghost table: Table, storedAt: int) returns (n: int)
      requires Valid() && (fetched.Some? ==> Lists(fetched.value, table))
      modifies this
      ensures Valid()
      ensures old(Fresh(now)) || fetched.None? ==> cached == old(cached) && cachedAt == old(cachedAt)
      ensures !old(Fresh(now)) && fetched.Some? ==>
                cached != null && fresh(cached) && cached.m == Effective(table) && cachedAt == storedAt
      ensures n == ToInt(Looked(if old(Fresh(now)) then old(cached.m)
                                else if fetched.Some? then Effective(table) else DEFAULTS, key))
      ensures var values := if old(Fresh(now)) then old(cached.m) else if fetched.Some? then Effective(table) else DEFAULTS;
              if key in values && values[key].Number? then
                var x := values[key].n;
                (x >= 0.0 ==> n as real <= x < n as real + 1.0) && (x <= 0.0 ==> n as real - 1.0 < x <= n as real)
              else n == 0
    {
      var values := All(now, fetched, table, storedAt);
      if values.Err? {
        return ToInt(Looked(DEFAULTS, key));
      }
      return ToInt(Looked(values.value.m, key));
    }

    method Bool(key: string, now: int, fetched: Option<seq<Row>>, ghost table: Table, storedAt: int) returns (b: bool)
      requires Valid() && (fetched.Some? ==> Lists(fetched.value, table))
      modifies this
      ensures Valid()
      ensures old(Fresh(now)) || fetched.None? ==> cached == old(cached) && cachedAt == old(cachedAt)
      ensures !old(Fresh(now)) && fetched.Some? ==>
                cached != null && fresh(cached) && cached.m == Effective(table) && cachedAt == storedAt
      ensures b == ToBool(Looked(if old(Fresh(now)) then old(cached.m)
                                 else if fetched.Some? then Effective(table) else DEFAULTS, key))
      ensures var values := if old(Fresh(now)) then old(cached.m) else if fetched.Some? then Effective(table) else DEFAULTS;
              b <==> key in values && values[key] == Boolean(true)
    {
      var values := All(now, fetched, table, storedAt);
      if values.Err? {
        return ToBool(Looked(DEFAULTS, key));
      }
      return ToBool(Looked(values.value.m, key));
    }

    method Invalidate()
      modifies this`cached
      ensures cached == null
    {
      cached := null;
    }
  }

  /** The table within a transaction. */
  class SettingsTable {
    var rows: Table

    constructor (rows: Table)
      ensures this.rows == rows
    {
      this.rows := rows;
    }

    method Set(key: string, value: Json) returns (error: Option<SettingsError>)
      modifies this
      ensures error == if key in DEFAULTS then None else Some(UnknownKey(key))
      ensures rows == if error.None? then old(rows)[key := Some(value)] else old(rows)
    {
      if key !in DEFAULTS {
        return Some(UnknownKey(key));
      }
      rows := rows[key := Some(value)];
      return None;
    }
  }

  /**
   * A setting that was accepted is the policy from then on, and no other changes: a whole number or a boolean is
   * read back as itself, and a value that does not decode leaves the default.
   */
  lemma SetIsEffective(table: Table, key: string, value: Json, k: int, b: bool)
    requires key in DEFAULTS
    ensures Effective(table[key := Some(value)]) == Effective(table)[key := value]
    ensures Effective(table[key := None]) == Effective(table)[key := DEFAULTS[key]]
    ensures value == Number(k as real) ==> ToInt(Looked(Effective(table[key := Some(value)]), key)) == k
    ensures value == Boolean(b) ==> ToBool(Looked(Effective(table[key := Some(value)]), key)) == b
  {
    assert (k as real).Floor == k && (-(k as real)).Floor == -k;
  }
}
