/**
 * The chat backend's message store: a SQLite database holding one table
 * `messages(id INTEGER PRIMARY KEY AUTOINCREMENT, username TEXT NOT NULL,
 * message TEXT NOT NULL)`.
 *
 * The SQLite engine is modelled as an abstract append-only table held by a
 * `Database` object.  Every engine call whose outcome the code branches on
 * (open, exec, prepare, bind, step) takes its outcome as a `Call` parameter,
 * so that each failure path of the C code can be followed.
 */
module MessageStore {
  import opened Nullable

  newtype Byte = b: int | 0 <= b < 256

  type Bytes = seq<Byte>

  /** The contents of a C string: the bytes before its terminating NUL, so `strlen` is its length. */
  type CString = s: Bytes | forall i | 0 <= i < |s| :: s[i] != 0

  const MAX_USERNAME_LENGTH := 50
  const MAX_MESSAGE_LENGTH := 1000

  // SQLite result codes used by the store.
  const SQLITE_OK := 0
  const SQLITE_ERROR := 1
  const SQLITE_FULL := 13
  const SQLITE_ROW := 100
  const SQLITE_DONE := 101

  /** The largest rowid SQLite assigns; an AUTOINCREMENT table cannot go past it. */
  const MAX_ROWID := 0x7FFF_FFFF_FFFF_FFFF

  /** A result code reporting a failure (not OK, and not one of the two step codes). */
  type ErrorCode = c: int | c != SQLITE_OK && c != SQLITE_ROW && c != SQLITE_DONE witness SQLITE_ERROR

  /** The outcome the SQLite engine gives one call. */
  datatype Call = Succeeds | Fails(code: ErrorCode)

  /** Where, if anywhere, the engine fails while stepping through a SELECT. */
  datatype ScanFault = NoFault | FailAtStep(step: nat, code: ErrorCode)

  /** A stored row; a column the engine hands back as NULL is `None`. */
  datatype Row = Row(id: int, username: Option<Bytes>, message: Option<Bytes>)

  /** One line of the chat history printed by `db_get_messages`: `[username]: message`, each as `%s` prints it. */
  datatype Entry = Entry(username: CString, message: CString)

  /** What the file `chat.db` holds when it is opened. */
  datatype StoredFile =
    | NoMessagesTable
    | MessagesTable(rows: seq<Row>, sequence: int)  // rows in key order; `sequence` is the table's sqlite_sequence value

  /** Why `db_insert_message` refuses its arguments, in the order the checks are made. */
  datatype Rejection = NullHandle | MissingUsername | MissingMessage | UsernameTooLong | MessageTooLong

  function Code(c: Call): int
  {
    if c.Succeeds? then SQLITE_OK else c.code
  }

  /** The code of the first failing call, or SQLITE_OK when every call succeeds. */
  function FirstFailure(calls: seq<Call>): (rc: int)
    ensures rc == SQLITE_OK <==> forall k | 0 <= k < |calls| :: calls[k].Succeeds?
    ensures rc != SQLITE_OK ==> exists k | 0 <= k < |calls| :: calls[k].Fails? && calls[k].code == rc && forall j | 0 <= j < k :: calls[j].Succeeds?
  {
    if calls == [] then SQLITE_OK
    else if calls[0].Fails? then calls[0].code
    else
      var rc := FirstFailure(calls[1..]);
      assert forall k | 1 <= k < |calls| :: calls[k] == calls[1..][k - 1];
      rc
  }

  predicate Present(s: Option<CString>)
  {
    s.Some? && |s.value| > 0
  }

  /** The checks `db_insert_message` makes before it touches the database. */
  function Validate(hasHandle: bool, username: Option<CString>, message: Option<CString>): (r: Option<Rejection>)
    ensures r == None <==>
              hasHandle && Present(username) && Present(message) &&
              |username.value| <= MAX_USERNAME_LENGTH && |message.value| <= MAX_MESSAGE_LENGTH
    ensures r == Some(NullHandle) <==> !hasHandle
    ensures r == Some(MissingUsername) <==> hasHandle && !Present(username)
    ensures r == Some(MissingMessage) <==> hasHandle && Present(username) && !Present(message)
    ensures r == Some(UsernameTooLong) <==>
              hasHandle && Present(username) && Present(message) && |username.value| > MAX_USERNAME_LENGTH
    ensures r == Some(MessageTooLong) <==>
              hasHandle && Present(username) && Present(message) &&
              |username.value| <= MAX_USERNAME_LENGTH && |message.value| > MAX_MESSAGE_LENGTH
  {
    if !hasHandle then Some(NullHandle)
    else if username.None? || |username.value| == 0 then Some(MissingUsername)
    else if message.None? || |message.value| == 0 then Some(MissingMessage)
    else if |username.value| > MAX_USERNAME_LENGTH then Some(UsernameTooLong)
    else if |message.value| > MAX_MESSAGE_LENGTH then Some(MessageTooLong)
    else None
  }

  predicate StrictlyAscending(rows: seq<Row>)
  {
    forall i, j | 0 <= i < j < |rows| :: rows[i].id < rows[j].id
  }

  predicate IsComplete(row: Row)
  {
    row.username.Some? && row.message.Some?
  }

  /** The rows a SELECT over `rows` yields with no NULL column: exactly the complete ones. */
  function Complete(rows: seq<Row>): (r: seq<Row>)
    ensures |r| <= |rows|
    ensures forall k | 0 <= k < |r| :: IsComplete(r[k]) && r[k] in rows
    ensures forall i | 0 <= i < |rows| && IsComplete(rows[i]) :: rows[i] in r
  {
    if rows == [] then []
    else
      assert forall i | 1 <= i < |rows| :: rows[i] == rows[1..][i - 1];
      if IsComplete(rows[0]) then [rows[0]] + Complete(rows[1..])
      else Complete(rows[1..])
  }

  /** What `printf("%s")` prints of a column: its bytes up to, not including, the first NUL. */
  function UntilNul(s: Bytes): (r: CString)
    ensures |r| <= |s| && r == s[..|r|]
    ensures |r| < |s| ==> s[|r|] == 0
  {
    if s == [] || s[0] == 0 then []
    else [s[0]] + UntilNul(s[1..])
  }

  /** A C string prints in full. */
  lemma UntilNulOfCString(s: CString)
    ensures UntilNul(s) == s
  {
  }

  function EntryOf(row: Row): Entry
    requires IsComplete(row)
  {
    Entry(UntilNul(row.username.value), UntilNul(row.message.value))
  }

  /** The chat history printed for `rows`, one entry per row without NULLs, in table order. */
  function Listing(rows: seq<Row>): (r: seq<Entry>)
    ensures |r| <= |rows|
  {
    var c := Complete(rows);
    seq(|c|, k requires 0 <= k < |c| => EntryOf(c[k]))
  }

  /** Every row without a NULL column has its entry in the printed history. */
  lemma CompleteRowsListed(rows: seq<Row>)
    ensures forall i | 0 <= i < |rows| && IsComplete(rows[i]) :: EntryOf(rows[i]) in Listing(rows)
  {
    var c, r := Complete(rows), Listing(rows);
    forall i | 0 <= i < |rows| && IsComplete(rows[i])
      ensures EntryOf(rows[i]) in r
    {
      var k :| 0 <= k < |c| && c[k] == rows[i];
      assert r[k] == EntryOf(rows[i]);
    }
  }

  lemma {:induction false} CompleteAppend(a: seq<Row>, b: seq<Row>)
    ensures Complete(a + b) == Complete(a) + Complete(b)
  {
    if a == [] {
      assert a + b == b;
    } else {
      assert (a + b)[0] == a[0];
      assert (a + b)[1..] == a[1..] + b;
      CompleteAppend(a[1..], b);
    }
  }

  /** Listing distributes over concatenation: the history of `a + b` is that of `a` followed by that of `b`. */
  lemma ListingAppend(a: seq<Row>, b: seq<Row>)
    ensures Listing(a + b) == Listing(a) + Listing(b)
  {
    CompleteAppend(a, b);
  }

  /** One more step of the scan prints the next row, unless it has a NULL column. */
  lemma ListingStep(rows: seq<Row>, pos: nat)
    requires pos < |rows|
    ensures Listing(rows[..pos + 1]) ==
            Listing(rows[..pos]) + (if IsComplete(rows[pos]) then [EntryOf(rows[pos])] else [])
  {
    ListingAppend(rows[..pos], [rows[pos]]);
    assert rows[..pos + 1] == rows[..pos] + [rows[pos]];
    if !IsComplete(rows[pos]) {
      assert Complete([rows[pos]]) == [];
    }
  }

  /** The rows printed keep the table's ascending id order. */
  lemma {:induction false} CompleteAscending(rows: seq<Row>)
    requires StrictlyAscending(rows)
    ensures StrictlyAscending(Complete(rows))
  {
    if rows != [] {
      var tail := rows[1..];
      assert StrictlyAscending(tail) by {
        forall i, j | 0 <= i < j < |tail| ensures tail[i].id < tail[j].id {
          assert tail[i] == rows[i + 1] && tail[j] == rows[j + 1];
        }
      }
      CompleteAscending(tail);
      var rest := Complete(tail);
      forall k | 0 <= k < |rest|
        ensures rows[0].id < rest[k].id
      {
        var j :| 0 <= j < |tail| && tail[j] == rest[k];
        assert rows[j + 1] == rest[k];
      }
      if IsComplete(rows[0]) {
        ConsAscending(rows[0], rest);
      }
    }
  }

  lemma ConsAscending(first: Row, rest: seq<Row>)
    requires StrictlyAscending(rest)
    requires forall k | 0 <= k < |rest| :: first.id < rest[k].id
    ensures StrictlyAscending([first] + rest)
  {
    var c := [first] + rest;
    forall i, j | 0 <= i < j < |c| ensures c[i].id < c[j].id {
      assert c[j] == rest[j - 1];
      if i > 0 {
        assert c[i] == rest[i - 1];
      }
    }
  }

  /** A row written by a successful insert is listed last, with exactly the bytes given. */
  lemma InsertedRowListedLast(rows: seq<Row>, id: int, username: CString, message: CString)
    ensures Listing(rows + [Row(id, Some(username), Some(message))]) == Listing(rows) + [Entry(username, message)]
  {
    var row := Row(id, Some(username), Some(message));
    ListingAppend(rows, [row]);
    UntilNulOfCString(username);
    UntilNulOfCString(message);
    assert [row][1..] == [];
  }

  /** The result code of the step that a SELECT makes at position `pos` of an `n`-row table. */
  function StepCode(n: nat, pos: nat, fault: ScanFault): int
  {
    if fault.FailAtStep? && fault.step == pos then fault.code
    else if pos < n then SQLITE_ROW
    else SQLITE_DONE
  }

  /** How many rows a scan of an `n`-row table reaches before it stops. */
  function Reached(n: nat, fault: ScanFault): (k: nat)
    ensures k <= n
  {
    if fault.FailAtStep? && fault.step <= n then fault.step else n
  }

  /** The code `db_get_messages` returns after a prepared scan of an `n`-row table. */
  function ScanResult(n: nat, fault: ScanFault): int
  {
    if fault.FailAtStep? && fault.step <= n then fault.code else SQLITE_OK
  }

  /** The id the next AUTOINCREMENT insert into a table opened from `file` receives. */
  function FirstFreeId(file: StoredFile): (id: int)
    ensures file.MessagesTable? && StrictlyAscending(file.rows) ==>
              id > file.sequence && forall k | 0 <= k < |file.rows| :: file.rows[k].id < id
    ensures file.NoMessagesTable? ==> id == 1
  {
    match file
    case NoMessagesTable => 1
    case MessagesTable(rows, sequence) =>
      var largest := if rows == [] then 0 else rows[|rows| - 1].id;
      (if sequence > largest then sequence else largest) + 1
  }

  /** An open connection to `chat.db`, seen as its one table and its statement bookkeeping. */
  class Database {
    var isOpen: bool
    var tableExists: bool
    var rows: seq<Row>
    var nextId: int
    ghost var openStatements: nat

    /** Ids are unique, rows are in ascending id order, and every id is below the next one to assign. */
    ghost predicate Valid()
      reads this
    {
      StrictlyAscending(rows) &&
      (forall k | 0 <= k < |rows| :: rows[k].id < nextId) &&
      (!tableExists ==> rows == [])
    }

    /** `sqlite3_open` succeeding on a file holding `file`. */
    constructor (file: StoredFile)
      requires file.MessagesTable? ==> StrictlyAscending(file.rows)
      ensures Valid() && isOpen && openStatements == 0
      ensures tableExists == file.MessagesTable?
      ensures rows == (if file.MessagesTable? then file.rows else [])
      ensures nextId == FirstFreeId(file)
    {
      isOpen := true;
      tableExists := file.MessagesTable?;
      rows := if file.MessagesTable? then file.rows else [];
      nextId := FirstFreeId(file);
      openStatements := 0;
    }

    /** `sqlite3_prepare_v2` of a statement on the messages table; a missing table is an SQL error. */
    method Prepare(call: Call) returns (rc: int)
      modifies this`openStatements
      ensures rc == (if tableExists then Code(call) else SQLITE_ERROR)
      ensures openStatements == old(openStatements) + (if rc == SQLITE_OK then 1 else 0)
    {
      rc := if tableExists then Code(call) else SQLITE_ERROR;
      if rc == SQLITE_OK {
        openStatements := openStatements + 1;
      }
    }

    /** `sqlite3_finalize` of a statement this connection prepared. */
    method Finalize()
      requires openStatements > 0
      modifies this`openStatements
      ensures openStatements == old(openStatements) - 1
    {
      openStatements := openStatements - 1;
    }

    /** `sqlite3_step` of the prepared INSERT: append one row under the next AUTOINCREMENT id. */
    method StepInsert(call: Call, username: Bytes, message: Bytes) returns (rc: int)
      requires Valid() && tableExists && openStatements > 0
      modifies this`rows, this`nextId
      ensures Valid()
      ensures rc == (if call.Fails? then call.code else if old(nextId) > MAX_ROWID then SQLITE_FULL else SQLITE_DONE)
      ensures rc == SQLITE_DONE ==>
                rows == old(rows) + [Row(old(nextId), Some(username), Some(message))] && nextId == old(nextId) + 1
      ensures rc != SQLITE_DONE ==> rows == old(rows) && nextId == old(nextId)
    {
      if call.Fails? {
        rc := call.code;
      } else if nextId > MAX_ROWID {
        rc := SQLITE_FULL;
      } else {
        rows := rows + [Row(nextId, Some(username), Some(message))];
        nextId := nextId + 1;
        rc := SQLITE_DONE;
      }
    }
  }

  /** db_init: open `chat.db` into a new handle stored through the reference. */
  method Init(hasReference: bool, file: StoredFile, open: Call) returns (rc: int, db: Database?)
    requires file.MessagesTable? ==> StrictlyAscending(file.rows)
    ensures !hasReference ==> rc == SQLITE_ERROR && db == null
    ensures hasReference && open.Fails? ==> rc == open.code && db == null
    ensures hasReference && open.Succeeds? ==>
              rc == SQLITE_OK && db != null && fresh(db) && db.Valid() && db.isOpen && db.openStatements == 0 &&
              db.tableExists == file.MessagesTable? &&
              db.rows == (if file.MessagesTable? then file.rows else []) && db.nextId == FirstFreeId(file)
  {
    if !hasReference {
      return SQLITE_ERROR, null;
    }
    if open.Fails? {
      return open.code, null;
    }
    db := new Database(file);
    rc := SQLITE_OK;
  }

  /** db_close: a NULL handle is ignored; otherwise the connection is released. */
  method Close(db: Database?)
    requires db != null ==> db.isOpen
    modifies db
    ensures db != null ==>
              !db.isOpen && db.rows == old(db.rows) && db.tableExists == old(db.tableExists) &&
              db.nextId == old(db.nextId) && db.openStatements == old(db.openStatements)
  {
    if db == null {
      return;
    }
    db.isOpen := false;
  }

  /** db_create_tables: CREATE TABLE IF NOT EXISTS, so existing rows survive and a second call changes nothing. */
  method CreateTables(db: Database?, exec: Call) returns (rc: int)
    requires db != null ==> db.Valid() && db.isOpen
    modifies db
    ensures db == null ==> rc == SQLITE_ERROR
    ensures db != null ==> rc == Code(exec)
    ensures db != null ==>
              db.Valid() && db.isOpen && db.tableExists == (old(db.tableExists) || exec.Succeeds?) &&
              db.rows == old(db.rows) && db.nextId == old(db.nextId) && db.openStatements == old(db.openStatements)
  {
    if db == null {
      return SQLITE_ERROR;
    }
    if exec.Fails? {
      return exec.code;
    }
    db.tableExists := true;
    rc := SQLITE_OK;
  }

  /**
   * db_insert_message: validate, then prepare, bind, bind, step a parameterised INSERT,
   * finalizing the statement on every path once it has been prepared.
   */
  method InsertMessage(db: Database?, username: Option<CString>, message: Option<CString>,
                       prepare: Call, bindUsername: Call, bindMessage: Call, step: Call)
    returns (rc: int)
    requires db != null ==> db.Valid() && db.isOpen
    modifies db
    ensures Validate(db != null, username, message).Some? ==> rc == SQLITE_ERROR
    ensures db != null ==>
              db.Valid() && db.isOpen && db.tableExists == old(db.tableExists) &&
              db.openStatements == old(db.openStatements)
    ensures db != null && Validate(true, username, message) == None ==>
              rc == (if !old(db.tableExists) then SQLITE_ERROR
                     else FirstFailure([prepare, bindUsername, bindMessage,
                                        if step.Succeeds? && old(db.nextId) > MAX_ROWID then Fails(SQLITE_FULL) else step]))
    ensures db != null && rc == SQLITE_OK ==>
              db.rows == old(db.rows) + [Row(old(db.nextId), Some(username.value), Some(message.value))] &&
              db.nextId == old(db.nextId) + 1
    ensures db != null && rc != SQLITE_OK ==> db.rows == old(db.rows) && db.nextId == old(db.nextId)
  {
    if Validate(db != null, username, message).Some? {
      return SQLITE_ERROR;
    }
    rc := db.Prepare(prepare);
    if rc != SQLITE_OK {
      return;
    }
    ghost var stepCall := if step.Succeeds? && db.nextId > MAX_ROWID then Fails(SQLITE_FULL) else step;
    ghost var calls := [prepare, bindUsername, bindMessage, stepCall];
    assert prepare.Succeeds?;
    if bindUsername.Fails? {
      db.Finalize();
      return bindUsername.code;
    }
    if bindMessage.Fails? {
      assert FirstFailure(calls) == FirstFailure(calls[1..]) == FirstFailure(calls[2..]);
      db.Finalize();
      return bindMessage.code;
    }
    assert FirstFailure(calls) == FirstFailure(calls[1..]) == FirstFailure(calls[2..]) == FirstFailure(calls[3..]);
    assert calls[3..] == [stepCall];
    rc := db.StepInsert(step, username.value, message.value);
    if rc != SQLITE_DONE {
      db.Finalize();
      return;
    }
    db.Finalize();
    rc := SQLITE_OK;
  }

  /**
   * db_get_messages: `SELECT username, message FROM messages ORDER BY id ASC`, stepping
   * while the engine reports a row; a row with a NULL column is skipped. The lines the C
   * code prints are returned as `shown`.
   */
  method GetMessages(db: Database?, prepare: Call, fault: ScanFault) returns (rc: int, shown: seq<Entry>)
    requires db != null ==> db.Valid() && db.isOpen
    modifies db
    ensures db == null ==> rc == SQLITE_ERROR && shown == []
    ensures db != null ==>
              db.Valid() && db.isOpen && db.rows == old(db.rows) && db.tableExists == old(db.tableExists) &&
              db.nextId == old(db.nextId) && db.openStatements == old(db.openStatements)
    ensures db != null && !db.tableExists ==> rc == SQLITE_ERROR && shown == []
    ensures db != null && db.tableExists && prepare.Fails? ==> rc == prepare.code && shown == []
    ensures db != null && db.tableExists && prepare.Succeeds? ==>
              rc == ScanResult(|db.rows|, fault) && shown == Listing(db.rows[..Reached(|db.rows|, fault)])
  {
    shown := [];
    if db == null {
      return SQLITE_ERROR, [];
    }
    rc := db.Prepare(prepare);
    if rc != SQLITE_OK {
      return;
    }
    var n := |db.rows|;
    var pos := 0;
    var response := StepCode(n, pos, fault);
    while response == SQLITE_ROW
      invariant db.rows == old(db.rows) && n == |db.rows| && db.openStatements == old(db.openStatements) + 1
      invariant db.isOpen && db.tableExists == old(db.tableExists) && db.nextId == old(db.nextId)
      invariant pos <= n
      invariant response == StepCode(n, pos, fault)
      invariant fault.FailAtStep? ==> pos <= fault.step
      invariant shown == Listing(db.rows[..pos])
      decreases n - pos
    {
      var row := db.rows[pos];
      ListingStep(db.rows, pos);
      if IsComplete(row) {
        shown := shown + [EntryOf(row)];
      }
      pos := pos + 1;
      response := StepCode(n, pos, fault);
    }
    if response != SQLITE_DONE {
      db.Finalize();
      return response, shown;
    }
    db.Finalize();
    rc := SQLITE_OK;
  }

  lemma TwoRowsListed(u1: CString, m1: CString, u2: CString, m2: CString)
    ensures Listing([Row(1, Some(u1), Some(m1)), Row(2, Some(u2), Some(m2))]) == [Entry(u1, m1), Entry(u2, m2)]
  {
    InsertedRowListedLast([], 1, u1, m1);
    InsertedRowListedLast([Row(1, Some(u1), Some(m1))], 2, u2, m2);
    assert [] + [Row(1, Some(u1), Some(m1))] == [Row(1, Some(u1), Some(m1))];
  }

  /**
   * Two inserts into a `chat.db` that has no messages table yet: after creating the table,
   * the two valid messages receive ids 1 and 2 and are listed in insertion order.
   */
  method InsertTwiceThenList(u1: CString, m1: CString, u2: CString, m2: CString)
    returns (rc: int, shown: seq<Entry>, ids: seq<int>)
    requires 0 < |u1| <= MAX_USERNAME_LENGTH && 0 < |m1| <= MAX_MESSAGE_LENGTH
    requires 0 < |u2| <= MAX_USERNAME_LENGTH && 0 < |m2| <= MAX_MESSAGE_LENGTH
    ensures rc == SQLITE_OK
    ensures shown == [Entry(u1, m1), Entry(u2, m2)]
    ensures ids == [1, 2]
  {
    var db;
    rc, db := Init(true, NoMessagesTable, Succeeds);
    rc := CreateTables(db, Succeeds);
    ghost var calls := [Succeeds, Succeeds, Succeeds, Succeeds];
    assert FirstFailure(calls) == SQLITE_OK;
    assert Validate(true, Some(u1), Some(m1)) == None && Validate(true, Some(u2), Some(m2)) == None;
    rc := InsertMessage(db, Some(u1), Some(m1), Succeeds, Succeeds, Succeeds, Succeeds);
    assert rc == SQLITE_OK && db.rows == [Row(1, Some(u1), Some(m1))] && db.nextId == 2;
    rc := InsertMessage(db, Some(u2), Some(m2), Succeeds, Succeeds, Succeeds, Succeeds);
    assert db.rows == [Row(1, Some(u1), Some(m1)), Row(2, Some(u2), Some(m2))];
    TwoRowsListed(u1, m1, u2, m2);
    assert db.rows[..2] == db.rows;
    rc, shown := GetMessages(db, Succeeds, NoFault);
    ids := [db.rows[0].id, db.rows[1].id];
    Close(db);
  }

  /**
   * The session of the repository's database test: open whatever `chat.db` holds, create the
   * table if absent, insert one valid message, list the history and close. The new message is
   * listed after everything already stored, unless the ids are exhausted.
   */
  method TestSession(file: StoredFile, username: CString, message: CString)
    returns (insertRc: int, listRc: int, shown: seq<Entry>)
    requires file.MessagesTable? ==> StrictlyAscending(file.rows)
    requires 0 < |username| <= MAX_USERNAME_LENGTH && 0 < |message| <= MAX_MESSAGE_LENGTH
    ensures listRc == SQLITE_OK
    ensures var stored := if file.MessagesTable? then file.rows else [];
            if FirstFreeId(file) <= MAX_ROWID
            then insertRc == SQLITE_OK && shown == Listing(stored) + [Entry(username, message)]
            else insertRc == SQLITE_FULL && shown == Listing(stored)
  {
    var rc, db := Init(true, file, Succeeds);
    rc := CreateTables(db, Succeeds);
    ghost var stored := db.rows;
    ghost var id := db.nextId;
    assert id == FirstFreeId(file) && db.tableExists;
    assert Validate(true, Some(username), Some(message)) == None;
    insertRc := InsertMessage(db, Some(username), Some(message), Succeeds, Succeeds, Succeeds, Succeeds);
    assert insertRc == (if id <= MAX_ROWID then SQLITE_OK else SQLITE_FULL) by {
      var calls := [Succeeds, Succeeds, Succeeds, if id > MAX_ROWID then Fails(SQLITE_FULL) else Succeeds];
      assert FirstFailure(calls) == FirstFailure(calls[1..]) == FirstFailure(calls[2..]) == FirstFailure(calls[3..]);
      assert calls[3..] == [calls[3]];
    }
    assert insertRc == SQLITE_OK ==> Listing(db.rows) == Listing(stored) + [Entry(username, message)] by {
      if insertRc == SQLITE_OK {
        InsertedRowListedLast(stored, id, username, message);
      }
    }
    assert db.rows[..|db.rows|] == db.rows;
    listRc, shown := GetMessages(db, Succeeds, NoFault);
    Close(db);
  }
}
