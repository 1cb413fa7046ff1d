/** The metadata keywords: the transaction isolation level of the
    connection and the primary-key columns of a table. */
module Metadata {
  import opened Common
  import opened Jdbc

  // The `java.sql.Connection` isolation constants.
  const TransactionNone: int := 0
  const TransactionReadUncommitted: int := 1
  const TransactionReadCommitted: int := 2
  const TransactionRepeatableRead: int := 4
  const TransactionSerializable: int := 8

  const IsolationCodes: set<int> := {0, 1, 2, 4, 8}

  const IsolationNames: set<string> := {
    "TRANSACTION_NONE", "TRANSACTION_READ_UNCOMMITTED", "TRANSACTION_READ_COMMITTED",
    "TRANSACTION_REPEATABLE_READ", "TRANSACTION_SERIALIZABLE" }

  /** `getTransactionIsolationLevel`: the constant's name, or "" for a code
      the switch does not list. */
  function IsolationName(code: int): (r: string)
    ensures r == "" <==> code !in IsolationCodes
    ensures r != "" ==> r in IsolationNames
  {
    if code == TransactionNone then "TRANSACTION_NONE"
    else if code == TransactionReadCommitted then "TRANSACTION_READ_COMMITTED"
    else if code == TransactionReadUncommitted then "TRANSACTION_READ_UNCOMMITTED"
    else if code == TransactionRepeatableRead then "TRANSACTION_REPEATABLE_READ"
    else if code == TransactionSerializable then "TRANSACTION_SERIALIZABLE"
    else ""
  }

  /** The constant a name stands for, when it is one of the five names. */
  function IsolationCode(name: string): (r: Option<int>)
    ensures r.Some? <==> name in IsolationNames
    ensures r.Some? ==> r.value in IsolationCodes
  {
    if name == "TRANSACTION_NONE" then Some(TransactionNone)
    else if name == "TRANSACTION_READ_UNCOMMITTED" then Some(TransactionReadUncommitted)
    else if name == "TRANSACTION_READ_COMMITTED" then Some(TransactionReadCommitted)
    else if name == "TRANSACTION_REPEATABLE_READ" then Some(TransactionRepeatableRead)
    else if name == "TRANSACTION_SERIALIZABLE" then Some(TransactionSerializable)
    else None
  }

  /** The five listed codes get a name each, every other code gets "", and
      a name always reads back as the code it came from. */
  lemma IsolationNameRoundTrip(code: int)
    ensures IsolationName(code) != "" <==> code in IsolationCodes
    ensures IsolationName(code) != "" ==> IsolationName(code) in IsolationNames
    ensures code in IsolationCodes ==> IsolationCode(IsolationName(code)) == Some(code)
    ensures code !in IsolationCodes ==> IsolationCode(IsolationName(code)) == None
  {
  }

  /** Every one of the five names is the name of its code. */
  lemma IsolationCodeRoundTrip(name: string)
    requires name in IsolationNames
    ensures IsolationName(IsolationCode(name).value) == name
  {
  }

  /** Two codes with the same non-empty name are the same code. */
  lemma IsolationNameInjective(a: int, b: int)
    requires IsolationName(a) != "" && IsolationName(a) == IsolationName(b)
    ensures a == b
  {
    IsolationNameRoundTrip(a);
    IsolationNameRoundTrip(b);
  }

  /** `transactionIsolationLevelMustBe(levelName)`: exact, case-sensitive
      equality with the reported name. */
  function IsolationVerdict(db: Database, levelName: string): (v: Verdict)
    ensures v == Pass <==> levelName == IsolationName(db.isolation)
    ensures v != Pass ==> v == AssertFail("Expected Transaction Isolation Level: " + levelName
                                          + " Level found: " + IsolationName(db.isolation))
  {
    var found := IsolationName(db.isolation);
    if found == levelName then Pass
    else AssertFail("Expected Transaction Isolation Level: " + levelName + " Level found: " + found)
  }

  /** The check passes only for one of the five names, or for "" on a
      connection whose code the switch does not list; a name written in
      another case never passes. */
  lemma IsolationVerdictPasses(db: Database, levelName: string)
    ensures IsolationVerdict(db, levelName) == Pass ==>
              (levelName in IsolationNames && IsolationCode(levelName) == Some(db.isolation))
              || (levelName == "" && db.isolation !in IsolationCodes)
    ensures db.isolation == TransactionSerializable ==>
              IsolationVerdict(db, "transaction_serializable") != Pass
  {
    IsolationNameRoundTrip(db.isolation);
  }

  /** The key columns the metadata lists for a table, in its order; a table
      without keys (or unknown to the catalog) lists none. */
  function KeyRows(db: Database, table: string): seq<string>
  {
    if table in db.primaryKeys then db.primaryKeys[table] else []
  }

  /** What the primary-key reader returns: each row overwrites the text, so
      only the last column survives, and its trailing "," is removed. */
  function KeyText(keys: seq<string>): string
  {
    if keys == [] then "" else keys[|keys| - 1]
  }

  /** `getPrimaryKeyColumnsForTable`. */
  method GetPrimaryKeyColumnsForTable(conn: Connection, table: string) returns (ret: string)
    ensures ret == KeyText(KeyRows(conn.db, table))
    ensures ret == "" <==> KeyRows(conn.db, table) == [] || KeyText(KeyRows(conn.db, table)) == ""
  {
    var keys := KeyRows(conn.db, table);
    ret := "";
    var i := 0;
    while i < |keys|
      invariant 0 <= i <= |keys|
      invariant ret == if i == 0 then "" else keys[i - 1] + ","
    {
      ret := keys[i] + ",";
      i := i + 1;
    }
    if |ret| > 0 {
      ret := ret[..|ret| - 1];
    }
  }

  /** A comma-joined list is at least as long as its last part, and longer
      by the separator as soon as there are two parts. */
  lemma {:induction false} JoinCoversLast(parts: seq<string>, sep: string)
    requires parts != []
    ensures |Join(parts, sep)| >= |parts[|parts| - 1]|
    ensures |parts| >= 2 ==> |Join(parts, sep)| >= |sep| + |parts[|parts| - 1]|
  {
    if |parts| >= 2 {
      JoinCoversLast(parts[1..], sep);
      assert parts[1..][|parts[1..]| - 1] == parts[|parts| - 1];
    }
  }

  /** For a table with two or more key columns the reader never returns the
      comma-joined list the keyword documentation promises. */
  lemma KeyTextIsNotTheList(keys: seq<string>)
    requires |keys| >= 2
    ensures KeyText(keys) != Join(keys, ",")
  {
    JoinCoversLast(keys, ",");
  }

  /** `checkPrimaryKeyColumnsForTable`: both sides lower-cased, then exact
      equality. */
  function KeyVerdict(keys: seq<string>, columnList: string): (v: Verdict)
    ensures v == Pass <==> ToLower(columnList) == ToLower(KeyText(keys))
    ensures v != Pass ==> v == AssertFail("Given column list: " + ToLower(columnList)
                                          + " Keys found: " + ToLower(KeyText(keys)))
  {
    var given := ToLower(columnList);
    var found := ToLower(KeyText(keys));
    if given == found then Pass else AssertFail("Given column list: " + given + " Keys found: " + found)
  }

  method CheckPrimaryKeyColumnsForTable(conn: Connection, table: string, columnList: string)
    returns (v: Verdict)
    ensures v == KeyVerdict(KeyRows(conn.db, table), columnList)
  {
    var keys := GetPrimaryKeyColumnsForTable(conn, table);
    var given := ToLower(columnList);
    keys := ToLower(keys);
    if given != keys {
      return AssertFail("Given column list: " + given + " Keys found: " + keys);
    }
    return Pass;
  }

  /** On a table with several key columns the check rejects the full
      comma-separated list of its key columns. */
  lemma KeyVerdictRejectsList(keys: seq<string>)
    requires |keys| >= 2
    ensures KeyVerdict(keys, Join(keys, ",")) != Pass
  {
    JoinCoversLast(keys, ",");
    assert |ToLower(Join(keys, ","))| != |ToLower(KeyText(keys))|;
  }
}
