/** Where the keywords find their connection.

    The split library keeps a process-wide map from alias to connection and
    the alias of the current connection; the two monolithic libraries keep
    a single connection slot instead. Opening the connection itself (driver
    loading, `DriverManager`) is outside the model: the opened connection is
    a parameter. */
module Registry {
  import opened Common
  import opened Jdbc

  const DefaultAlias: string := "default"

  /** The alias an optional `aliasParam...` argument names. */
  function AliasOf(aliasParam: seq<string>): string
  {
    if |aliasParam| > 0 then aliasParam[0] else DefaultAlias
  }

  /** The registry's state: the open connections by alias and the current
      alias, "" when no connection is current. */
  datatype Aliases = Aliases(connections: map<string, Connection>, current: string)
  {
    /** The current alias is "" or names an open connection. */
    predicate Valid() { current == "" || current in connections }
  }

  /** `getConnection(alias)`: an IllegalStateException for an alias that has
      no open connection. */
  function Lookup(s: Aliases, alias: string): (r: Result<Connection>)
    ensures r.Ok? <==> alias in s.connections
    ensures r.Ok? ==> r.value == s.connections[alias]
    ensures r.Err? ==> r.error == InfraError(NoConnection)
  {
    if alias in s.connections then Ok(s.connections[alias]) else Err(InfraError(NoConnection))
  }

  /** `setConnection(connection, alias)`: the alias now names the new
      connection, whatever it named before, and becomes current; no other
      alias changes. */
  function Connected(s: Aliases, alias: string, c: Connection): (r: Aliases)
    ensures r.Valid()
    ensures r.current == alias && Lookup(r, alias) == Ok(c)
    ensures forall other :: other != alias ==> Lookup(r, other) == Lookup(s, other)
  {
    Aliases(s.connections[alias := c], alias)
  }

  /** `activateDatabaseConnection`: an open alias becomes current; an
      unknown one is an IllegalStateException. */
  function Activated(s: Aliases, alias: string): (r: Result<Aliases>)
    ensures r.Ok? <==> alias in s.connections
    ensures r.Ok? ==> r.value.Valid() && r.value.current == alias && r.value.connections == s.connections
    ensures r.Err? ==> r.error == InfraError(NoConnection)
  {
    if alias in s.connections then Ok(s.(current := alias)) else Err(InfraError(NoConnection))
  }

  /** `disconnectFromDatabase`: the alias is forgotten, and the current
      alias is cleared when it was that alias; an unknown alias is an
      IllegalStateException from the lookup that comes first. */
  function Disconnected(s: Aliases, alias: string): (r: Result<Aliases>)
    ensures r.Ok? <==> alias in s.connections
    ensures r.Err? ==> r.error == InfraError(NoConnection)
    ensures r.Ok? ==> Lookup(r.value, alias).Err?
    ensures r.Ok? ==> forall other :: other != alias ==> Lookup(r.value, other) == Lookup(s, other)
    ensures r.Ok? ==> r.value.current == (if s.current == alias then "" else s.current)
    ensures r.Ok? && s.Valid() ==> r.value.Valid()
  {
    if alias !in s.connections then Err(InfraError(NoConnection))
    else Ok(Aliases(s.connections - {alias}, if alias == s.current then "" else s.current))
  }

  /** A registry operation, as a keyword call issues it. */
  datatype AliasOp = Connect(alias: string, conn: Connection) | Activate(alias: string) | Disconnect(alias: string)

  /** One operation; a failing one leaves the registry as it was. */
  function Step(s: Aliases, op: AliasOp): Aliases
  {
    match op
    case Connect(a, c) => Connected(s, a, c)
    case Activate(a) => (match Activated(s, a) case Ok(t) => t case Err(_) => s)
    case Disconnect(a) => (match Disconnected(s, a) case Ok(t) => t case Err(_) => s)
  }

  /** The registry after a sequence of operations. */
  function Run(s: Aliases, ops: seq<AliasOp>): Aliases
  {
    if ops == [] then s else Step(Run(s, ops[..|ops| - 1]), ops[|ops| - 1])
  }

  /** The invariant holds after any sequence of connects, activations and
      disconnects, failed ones included, so the current alias always
      resolves unless it is "". */
  lemma {:induction false} RunKeepsValid(s: Aliases, ops: seq<AliasOp>)
    requires s.Valid()
    ensures Run(s, ops).Valid()
    ensures Run(s, ops).current != "" ==> Lookup(Run(s, ops), Run(s, ops).current).Ok?
  {
    if ops != [] {
      RunKeepsValid(s, ops[..|ops| - 1]);
    }
  }

  /** The registry of the split library. */
  class AliasRegistry {
    var connections: map<string, Connection>
    var current: string

    function State(): Aliases
      reads this
    {
      Aliases(connections, current)
    }

    /** Class loading: no connection, no current alias. */
    constructor ()
      ensures State() == Aliases(map[], "") && State().Valid()
    {
      connections := map[];
      current := "";
    }

    /** `connectToDatabase(..., aliasParam...)` once the connection is open. */
    method ConnectToDatabase(conn: Connection, aliasParam: seq<string>)
      modifies this
      ensures State() == Connected(old(State()), AliasOf(aliasParam), conn)
    {
      var alias := AliasOf(aliasParam);
      connections := connections[alias := conn];
      current := alias;
    }

    method ActivateDatabaseConnection(aliasParam: seq<string>) returns (v: Verdict)
      modifies this
      ensures Activated(old(State()), AliasOf(aliasParam)).Ok? ==>
                v == Pass && State() == Activated(old(State()), AliasOf(aliasParam)).value
      ensures Activated(old(State()), AliasOf(aliasParam)).Err? ==>
                v == Activated(old(State()), AliasOf(aliasParam)).error && State() == old(State())
    {
      var alias := AliasOf(aliasParam);
      if alias in connections {
        current := alias;
        return Pass;
      }
      return InfraError(NoConnection);
    }

    /** `getConnection(alias)`. */
    method GetConnection(alias: string) returns (r: Result<Connection>)
      ensures r == Lookup(State(), alias)
      ensures r.Ok? <==> alias in connections
    {
      if alias !in connections {
        return Err(InfraError(NoConnection));
      }
      return Ok(connections[alias]);
    }

    /** `getConnection()`: the connection of the current alias; with a valid
        registry it fails exactly when no alias is current (or "" itself was
        used as an alias and is gone). */
    method GetCurrentConnection() returns (r: Result<Connection>)
      requires State().Valid()
      ensures r == Lookup(State(), current)
      ensures current != "" ==> r.Ok?
    {
      r := GetConnection(current);
    }

    method DisconnectFromDatabase(aliasParam: seq<string>) returns (v: Verdict)
      modifies this
      ensures Disconnected(old(State()), AliasOf(aliasParam)).Ok? ==>
                v == Pass && State() == Disconnected(old(State()), AliasOf(aliasParam)).value
      ensures Disconnected(old(State()), AliasOf(aliasParam)).Err? ==>
                v == Disconnected(old(State()), AliasOf(aliasParam)).error && State() == old(State())
    {
      var alias := AliasOf(aliasParam);
      var found := GetConnection(alias);
      if found.Err? {
        return found.error;
      }
      connections := connections - {alias};
      if alias == current {
        current := "";
      }
      return Pass;
    }
  }

  /** The single connection slot of the monolithic libraries. The newer one
      (a static field) empties it on disconnect; the older one (an instance
      field) keeps the closed connection there. */
  class ConnectionSlot {
    const clearsOnDisconnect: bool
    var connection: Option<Connection>

    constructor (clearsOnDisconnect: bool)
      ensures this.clearsOnDisconnect == clearsOnDisconnect && connection == None
    {
      this.clearsOnDisconnect := clearsOnDisconnect;
      connection := None;
    }

    method ConnectToDatabase(conn: Connection)
      modifies this`connection
      ensures connection == Some(conn)
    {
      connection := Some(conn);
    }

    /** `getConnection()`: an IllegalStateException on an empty slot. */
    method GetConnection() returns (r: Result<Connection>)
      ensures r.Ok? <==> connection.Some?
      ensures r.Ok? ==> r.value == connection.value
      ensures r.Err? ==> r.error == InfraError(NoConnection)
    {
      if connection.None? {
        return Err(InfraError(NoConnection));
      }
      return Ok(connection.value);
    }

    method DisconnectFromDatabase() returns (v: Verdict)
      modifies this`connection
      ensures v == Pass <==> old(connection).Some?
      ensures v != Pass ==> v == InfraError(NoConnection) && connection == old(connection)
      ensures v == Pass ==> connection == if clearsOnDisconnect then None else old(connection)
    {
      var found := GetConnection();
      if found.Err? {
        return found.error;
      }
      if clearsOnDisconnect {
        connection := None;
      }
      return Pass;
    }
  }

  /** A call that touches the slot. */
  datatype SlotOp = Open(conn: Connection) | Close

  /** The slot after a sequence of connects and disconnects; disconnecting
      an empty slot fails and changes nothing. */
  function SlotAfter(slot: Option<Connection>, clears: bool, ops: seq<SlotOp>): Option<Connection>
  {
    if ops == [] then slot
    else
      var before := SlotAfter(slot, clears, ops[..|ops| - 1]);
      match ops[|ops| - 1]
      case Open(c) => Some(c)
      case Close => if clears then None else before
  }

  /** In the older library, once a connection was opened the slot is never
      empty again, so "No connection open" is raised only before the first
      connect; in the newer one a disconnect always empties it. */
  lemma {:induction false} SlotStaysFilled(slot: Option<Connection>, clears: bool, ops: seq<SlotOp>)
    ensures !clears && slot.Some? ==> SlotAfter(slot, clears, ops).Some?
    ensures clears && ops != [] && ops[|ops| - 1] == Close ==> SlotAfter(slot, clears, ops) == None
  {
    if ops != [] {
      SlotStaysFilled(slot, clears, ops[..|ops| - 1]);
    }
  }
}
