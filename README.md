# pgin core, modelled in Dafny

pgin is a small chat system. Its C backend has two independent parts. One is a TCP server that accepts one connection at a time, answers every request with the same HTTP response and shuts down cooperatively on SIGINT. The other is a SQLite message store with a strict create/insert/query contract. Its Go client shows a message from the server in a bubbletea terminal UI. This project models three decision-making cores and proves their properties:

- `message_store.dfy` (module `MessageStore`) models `backend/src/db.c`. A `Database` class holds the one `messages` table as a sequence of rows in key order, plus whether the table exists, the next AUTOINCREMENT id, whether the handle is open, and a ghost count of prepared statements that are not yet finalized. Every SQLite call that the C code branches on takes its outcome as a parameter (`Call`, `ScanFault`), except `sqlite3_close`, whose fallback is left out. A NULL `sqlite3 *` is a `null` `Database?`. A NULL C string is `None`. The lines `db_get_messages` prints are returned as `Entry` values. Each column is cut at its first NUL byte, as `printf("%s")` prints it (`UntilNul`).
- `server.dfy` (module `Server`) models `backend/src/main.c`. The accept loop is the method `Listener.Serve`, a loop over a sequence of events: `Sigint`, `AcceptFailed(errno)`, or `Accepted(recvReturn, peerReset)`. `peerReset` says that a `send` on that connection raises SIGPIPE. It is proved against the reference function `Run`. The socket state lives in the fields of `Listener`, and the method preconditions enforce ownership: a client socket can be opened only when none is open, and each socket can be closed only once. `RunServer` is `main`: start-up, then the loop.
- `tui.dfy` (module `Tui`) models `client/internal/tui/ui.go`. The model record is a datatype, `Update` is a pure transition, and `View` is reduced to the choice between the error screen and the message box.
- `nullable.dfy` holds the shared `Option` datatype.

Modelling decisions:

- Environment inputs:
  - The contents of `chat.db` when it is opened are an input (`StoredFile`). This is how rows with NULL columns can reach `db_get_messages`: the `NOT NULL` schema prevents them only for rows this code inserts, and `CREATE TABLE IF NOT EXISTS` keeps any table that already exists.
  - A stored table is assumed to keep the `id INTEGER PRIMARY KEY AUTOINCREMENT` column of this code's schema, whatever its other columns allow. So, as SQLite does for such a table, it is taken to be in strictly ascending key order, and new ids are assigned by AUTOINCREMENT.
  - The next AUTOINCREMENT id is one more than the larger of the table's `sqlite_sequence` value and its largest id. Past rowid 2^63-1 an insert fails with `SQLITE_FULL`.
  - Preparing a statement when the table does not exist fails with `SQLITE_ERROR`, as SQLite reports "no such table".
- Integer widths in `main.c`:
  - `recv`'s result is a 64-bit `ssize_t`.
  - Storing it in the `size_t read_size` (backend/src/main.c:94) wraps it modulo 2^64, so a -1 error return becomes a huge positive size. The response is therefore suppressed only when `recv` returns exactly 0. The model states this (`ToSizeT`, `ResponseUnlessZero`).
- Signal timing:
  - A SIGINT is delivered while the main thread waits in `accept`. It clears `keep_running` but does not end the wait. Only an `AcceptFailed(EINTR)` event makes `accept` return with EINTR.
  - A signal that arrives while a connection is being handled has the same observable effect as one delivered during that connection's `accept`, so it needs no separate event.
  - A signal that arrives before the loop is entered is the `sigintBeforeLoop` parameter of `RunServer`.
  - A signal can also arrive after an EINTR `continue` (backend/src/main.c:83) but before the loop test (backend/src/main.c:63). That window is represented by the order `Sigint` then `AcceptFailed(EINTR)`. It gives the same trace, a close of the server socket, and differs only in the exit label: `InterruptedShutdown` instead of `FlagClearedAtCheck`.
- SIGPIPE:
  - Only SIGINT gets a handler (backend/src/main.c:20), and `send` is called without `MSG_NOSIGNAL` (backend/src/main.c:102). So responding to a peer that has reset the connection raises SIGPIPE, and its default action ends the process.
  - That is the `KilledBySigpipe` exit. Neither the client nor the server socket is closed, and `main` does not return. A `recv` that fails with ECONNRESET returns -1, which sends the response (see above) into exactly such a socket.
  - If the events run out while the loop waits in `accept`, the outcome is `StillAccepting`. The server socket stays open, because the process is still blocked.
- Behaviour of `main.c` that the model keeps as written:
  - The response is sent whenever `read_size > 0`, and that includes a `recv` that returns -1 (backend/src/main.c:94-96).
  - The result of `listen` is not checked (backend/src/main.c:60). `RunServer` takes a `listenOk` argument and ignores it.
  - `accept` blocks and cannot be cancelled, as the comment at backend/src/main.c:67-76 says. A shutdown is therefore observed only when `accept` returns.

## Model

| member | source | states |
|---|---|---|
| MessageStore.Validate | backend/src/db.c:76-107 | Checks a handle, username and message in the code's order: null handle, null or empty username, null or empty message, username over 50 bytes, message over 1000 bytes. Each rejection reason holds exactly when the earlier checks pass and its own check fails. The input is accepted iff both strings are non-empty, the username is at most 50 bytes and the message at most 1000 bytes. |
| MessageStore.FirstFailure | backend/src/db.c:113-144 | The code reported after a chain of engine calls is SQLITE_OK iff every call succeeds. Otherwise it is the code of the first failing call, and every call before it succeeded. |
| MessageStore.InsertMessage | backend/src/db.c:73-148 | A rejected insert returns SQLITE_ERROR and leaves the table, the next id and the statement count unchanged. An accepted insert returns SQLITE_ERROR when the table is missing; otherwise it returns the first failing code among prepare, the two binds and the step (SQLITE_FULL once ids are exhausted). On SQLITE_OK exactly one row is appended: it carries the old next id and both strings untruncated, and prior rows are unchanged. Every prepared statement is finalized on every path. The table stays valid (unique, ascending ids, all below the next id). |
| MessageStore.Database.Prepare | backend/src/db.c:113-118 | Preparing fails with SQLITE_ERROR when the table does not exist; otherwise it reports the engine's outcome. The count of open statements grows by one exactly when preparation succeeds. |
| MessageStore.Database.Finalize | backend/src/db.c:146 | Finalizing is allowed only when a statement is open, and it closes exactly one. |
| MessageStore.Database.StepInsert | backend/src/db.c:138-144 | Stepping the INSERT appends one row with the next AUTOINCREMENT id only when it returns SQLITE_DONE. That id is above every existing id, so the table stays strictly ascending. Ids past 2^63-1 give SQLITE_FULL. A failed step changes nothing. |
| MessageStore.FirstFreeId | backend/src/db.c:55 | The first id the AUTOINCREMENT column assigns is above the stored sequence value and above every stored id. For a new table it is 1. |
| MessageStore.Database.constructor | backend/src/db.c:16 | Opening `chat.db` yields an open, valid handle holding the stored table, if there is one, and no open statements. |
| MessageStore.Init | backend/src/db.c:7-24 | A NULL reference gives SQLITE_ERROR and no handle. A failed open gives the engine's code and no handle. Otherwise the result is SQLITE_OK and a fresh valid handle over the file's contents. |
| MessageStore.Close | backend/src/db.c:27-40 | `db_close(NULL)` does nothing. Otherwise the handle is released, and each handle can be released only once. The table, the next id and the count of open statements are unchanged. |
| MessageStore.CreateTables | backend/src/db.c:43-70 | A NULL handle gives SQLITE_ERROR. The result is the exec's code. The table exists afterwards iff it existed before or the exec succeeded. Rows and the next id are untouched, so a second call changes nothing. |
| MessageStore.GetMessages | backend/src/db.c:151-199 | With a NULL handle, a missing table or a failed prepare, the scan reports the error and shows nothing. Otherwise it shows the username/message pairs of the rows without a NULL column, in table order, up to the step where the engine fails, and returns that failure or SQLITE_OK. The table is unchanged and the statement is finalized. |
| MessageStore.Complete | backend/src/db.c:176-184 | The rows shown are all complete (no NULL column) and are drawn from the table. Every complete row of the table is shown. There are no more of them than there are rows. |
| MessageStore.Listing | backend/src/db.c:172-187 | The history printed has at most one entry per row. |
| MessageStore.CompleteRowsListed | backend/src/db.c:172-187 | Every row without a NULL column has its entry in the printed history. |
| MessageStore.ListingStep | backend/src/db.c:172-187 | One more `SQLITE_ROW` step prints the next row's entry after the ones already printed, or nothing if that row has a NULL column. |
| MessageStore.CompleteAppend | backend/src/db.c:172-187 | Skipping NULL rows distributes over concatenation: a NULL row is dropped and the scan carries on past it. |
| MessageStore.ListingAppend | backend/src/db.c:172-187 | The history of two consecutive row ranges is the history of the first followed by that of the second. |
| MessageStore.CompleteAscending | backend/src/db.c:161 | The rows shown keep strictly ascending id order, the ORDER BY id ASC of the query. |
| MessageStore.InsertedRowListedLast | backend/src/db.c:110 | A row appended by a successful insert appears last in the history, with exactly the username and message given. |
| MessageStore.UntilNul | backend/src/db.c:186 | A column is printed up to its first NUL byte: the result is a NUL-free prefix of the column, and it is followed by a NUL unless it is the whole column. |
| MessageStore.UntilNulOfCString | backend/src/db.c:186 | A column without NUL bytes is printed in full. |
| MessageStore.InsertTwiceThenList | backend/src/db.c:43-199 | Open a `chat.db` that has no messages table, create it, insert two valid messages and list them. The result is SQLITE_OK, the two pairs in insertion order, and ids 1 and 2. |
| MessageStore.TestSession | test/test_db.c:7-30 | Open whatever `chat.db` holds, create the table if absent, insert one valid message, list and close. Listing returns SQLITE_OK. If ids are not exhausted, the insert returns SQLITE_OK and the history is the stored one followed by the new message; otherwise the insert returns SQLITE_FULL and the history is the stored one. |
| Server.ToSizeT | backend/src/main.c:94 | Storing `recv`'s result in a `size_t` gives a value below 2^64. |
| Server.ResponseUnlessZero | backend/src/main.c:94-96 | After `recv`'s result is converted to `size_t`, `read_size > 0` holds iff `recv` did not return 0. This includes the -1 error return. |
| Server.Session | backend/src/main.c:90-105 | One connection is a complete session: the accept, at most the fixed response, then the close of the client. |
| Server.Run | backend/src/main.c:63-107 | The reference definition of the loop, from the loop test or from inside `accept`, with the flag at a given value. The flag never goes from 0 back to 1. A clean shutdown, at the loop test or on EINTR, happens only with the flag cleared. |
| Server.SessionResponds | backend/src/main.c:94-105 | An accepted connection gets the response iff `recv` did not return exactly 0. The only bytes ever sent are the fixed response. The connection always starts with the accept and ends with the client socket's close. |
| Server.RunShape | backend/src/main.c:63-107 | Every run of the loop is a series of complete sessions (accept, optional fixed response, close of the client). So at most one client socket is open at a time and none is open when the next accept starts. The close of the server socket comes last, and only when the loop has ended. A SIGPIPE ends the trace just after an accept. |
| Server.ServerClosedOnce | backend/src/main.c:107 | The server socket is closed exactly once when the loop ends, by whichever exit. It is never closed while the loop still waits in accept, or when SIGPIPE ends the process. |
| Server.InterruptedAccept | backend/src/main.c:78-84 | An accept failing with EINTR starts another iteration, and handles no connection, while `keep_running` is set. It ends the loop cleanly, closing only the server socket, once the flag is cleared. |
| Server.FatalAccept | backend/src/main.c:86-87 | An accept failing with any other errno ends the loop as a fatal error, whatever the flag is and whatever events follow. |
| Server.ResetPeerKills | backend/src/main.c:96-102 | A connection whose `recv` did not return 0 and whose peer has reset it ends the process by SIGPIPE. The trace stops after the accept, no socket is closed and later events are not handled. |
| Server.ShutdownServesAtMostOne | backend/src/main.c:63-84 | With `keep_running` cleared, the loop test at the top ends the loop at once. Once the flag is cleared during an accept, at most that one connection is served before the loop ends. |
| Server.Listener.SigintHandler | backend/src/main.c:13-17 | The handler only clears `keep_running`. |
| Server.Listener.AcceptClient | backend/src/main.c:75-76 | A client socket is opened only when the server socket is open and no client socket is. |
| Server.Listener.SendResponse | backend/src/main.c:100-102 | `send` writes the fixed response on the open client socket. |
| Server.Listener.CloseClient | backend/src/main.c:105 | The open client socket is closed. |
| Server.Listener.CloseServer | backend/src/main.c:107 | The server socket is closed once, with no client socket open. |
| Server.Listener.constructor | backend/src/main.c:9-27 | After `socket` succeeds, the server socket is open, no client is, and `keep_running` starts at 1. |
| Server.Listener.AwaitAccept | backend/src/main.c:67-76 | While the process is blocked in `accept`, each SIGINT only clears the flag. The wait ends at the first event that is not a signal, or when the events run out, and what the loop does next is unchanged. |
| Server.Listener.HandleClient | backend/src/main.c:90-105 | One accepted connection: the trace grows by exactly the session's actions and the client is closed, unless the response is due and the peer has reset. In that case SIGPIPE leaves only the accept in the trace and the client socket open. |
| Server.Listener.AcceptReturned | backend/src/main.c:78-105 | One return from `accept` does what one step of `Run` does. On EINTR with the flag set, or after a session, another iteration follows. EINTR with the flag cleared, another errno, or SIGPIPE ends the loop with the matching exit. |
| Server.Listener.Serve | backend/src/main.c:63-107 | The loop's socket actions and exit reason are exactly those of `Run` over the events. Afterwards a client socket is open iff SIGPIPE ended the process. The server socket is open iff the loop is still waiting in accept or SIGPIPE ended the process. The flag never goes from 0 back to 1, and its final value is the one `Run` gives. |
| Server.RunServer | backend/src/main.c:19-110 | A failed `socket` exits with failure and closes nothing. A failed `setsockopt` or `bind` exits with failure after closing the server socket. `listen`'s result is ignored. Otherwise the run is the loop's. `main` returns 0 whatever the loop's exit reason, unless SIGPIPE ended the process inside the loop. |
| Tui.NewModel | client/internal/tui/ui.go:80 | The initial model is Go's zero value: empty message, nil error, zero width and height. |
| Tui.Update | client/internal/tui/ui.go:35-51 | Each field is changed only by its own message kind: the message by a server message, the error by an error message, width and height by a window-size message. Every other field keeps its value. The Quit command is returned iff the message is the key "q"; otherwise the command is nil. |
| Tui.KeysAndUnknownChangeNothing | client/internal/tui/ui.go:45-50 | A key press, or a message of no known kind, returns the model unchanged. The key "q" returns Quit and anything else returns nil. |
| Tui.UpdateIdempotent | client/internal/tui/ui.go:37-43 | Delivering the same message twice has the same effect as delivering it once. |
| Tui.View | client/internal/tui/ui.go:53-67 | The error screen is shown iff an error is set, with the text `Error: <err>` and a newline. Otherwise the box holds `Message: <message>` and is sized width-3 by height-5. |
| Tui.ErrorTakesPrecedence | client/internal/tui/ui.go:54-56 | While an error is set, neither a new server message nor a resize changes what is shown. |

## Left out

- SQLite engine internals are not modelled: parsing, paging, locking, the file format, and how the engine decides that a call fails. Each engine outcome is a parameter instead.
- `db_close`'s fallback to `sqlite3_close_v2` when `sqlite3_close` fails is not modelled. In both cases the model simply releases the handle.
- `Init` returns no handle when `sqlite3_open` fails. Real SQLite may still allocate a handle that the caller should close; the repository's test deliberately does not close it.
- The logging (`printf`, `fprintf`, `perror`) and the console colours of `backend/include/colors.h` are left out. The lines `db_get_messages` prints are the `Entry` values it returns, each column cut at its first NUL byte as `%s` does.
- Socket syscalls and byte buffers are left out: `socket`, `setsockopt`, `bind`, `listen`, `accept`, `recv`, `send` and `close`, and the request bytes. Their results are input events. A `send` to a peer that has not reset the connection is assumed to write the whole response, since its result is not checked.
- Signal registration and the `volatile sig_atomic_t` semantics are left out. Only the flag's value matters, and a signal is an event delivered between the main thread's steps.
- `model.Init` is left out because it makes the network call. The HTTP client code (`client/main.go`, `client/internal/client.go`) and the bubbletea program wiring (`client/cmd/chat/main.go`) are left out as well.
- lipgloss styling, layout and `help_view` are left out. `View` keeps only the error-or-box choice, the box's content string and its requested size.
- Tui.View: Go's 64-bit `int` is modelled as unbounded, so `width-3` and `height-5` do not wrap at the minimum `int`.
- The interactive Python socket client `test/main.py` is not part of this model.
