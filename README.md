# WireGuard config bot: allocation state machine in Dafny

This project models the request and approval logic of a Telegram bot that
hands out WireGuard VPN configuration files (`bot.py`). A user asks for a
configuration. The bot reserves one file for them and asks the administrator
to approve or reject. On approval it sends the file and moves it from
`configs/available` to `configs/used`.

The state has three parts:

- the listing of the available directory (a `seq<string>`, in enumeration
  order), filtered by `check_configs` down to the names ending in `.conf`;
- the set of names in the used directory;
- the `pending_requests` ledger, a map from user id to the reserved file name.

The modules are:

- `ConfigPool` (pool.dfy): the `.conf` filter (`Configs`). It also has the
  listing after a file has been moved out (`Remove`), with lemmas that the
  two commute and that a move takes out exactly one configuration.
- `CallbackToken` (token.dfy): the payload of the admin's buttons.
  `f"{action}_{user.id}"` is built by `FormatToken`. `split('_')` plus a
  two-part unpack plus `int` is `ParseToken`. Lemmas give both round trips
  (`Split`/`Join`, `Show`/`ParseInt`) and the exact shape of an accepted payload.
- `Allocation` (allocation.dfy): the store as a value, and `Request`
  (`get_config`) and `Decide` (`handle_admin_callback`) as functions of the
  store and the outcomes of the chat calls. It has branch-by-branch lemmas
  about which store changes. It also has `Valid`, the invariant both handlers
  keep.
- `Handlers` (handlers.dfy): class `Bot`, whose fields are the two
  directories and the ledger. Its methods `GetConfig` and
  `HandleAdminCallback` update the fields step by step, as the handlers do.
  Each is proved equal to `Request` / `Decide` and to preserve `Valid`.
- `Scenarios` (scenarios.dfy): runs of several handler calls.

Every Telegram call is an outcome parameter:

- `probeOk`: `send_chat_action` reached the user.
- `adminSendOk`: the approval prompt reached the admin.
- `deliveryOk`: `send_document` succeeded. Delivery also fails when the
  reserved file is no longer in the available listing, because `open()`
  raises first.
- `moveOk`: `shutil.move` of the sent file into the used directory
  succeeded. If it fails, the user already has the document, but the file
  stays available and the ledger entry is dropped.
- `notifyOk`: the rejection message reached the user.

Outputs are message kinds (`RequestReply`, `AdminNotice`, `AdminReply`,
`UserNotice`), not texts.

Any callback data other than `request_config` reaches `handle_admin_callback`,
so the branch lemmas of `Allocation` are stated for every payload that parses
to the given action and id, not only for the buttons' own payloads
(`DecideByParse`, `PaddedIdAccepted`).

The model follows the code where it differs from the intended design of the
allocator:

- A second request from the same user overwrites that user's ledger entry.
  There is no "already pending" refusal (`RequestOverwrites`).
- A reservation does not take the file out of the pool. Every request is
  given the first `.conf` name of the listing until that file is issued, so
  several users can be given the same file. Approving the second of them
  fails delivery, and that user's entry is dropped (`SameFileForTwoUsers`,
  `ThreeRequestersShareFirst`, `FirstApprovalIssuesShared`,
  `LaterDecisionsAfterShared`).
- A document that was sent but could not be moved stays available, so the
  next request is given the same file (`SentButNotMoved`).
- "Next" is the first name in directory enumeration order, not a sorted order.
- A failed probe while deciding drops the ledger entry for any action word,
  before the action is looked at. An action word other than `approve` or
  `reject` with a working probe leaves everything in place.

## Model

| member | source | states |
|---|---|---|
| `ConfigPool.IsConfig` | bot.py:49 | `f.endswith('.conf')`; a name that passes is never the empty, falsy string |
| `ConfigPool.Configs` | bot.py:49 | The result holds exactly the listed names ending in `.conf`, each as often as listed, as a subsequence of the listing (listing order); a listing without repeats gives a result without repeats |
| `ConfigPool.Remove` | bot.py:178 | After the move the listing holds every other name and not the moved one, in the same order; without repeats stays without repeats; a name not listed leaves the listing unchanged |
| `ConfigPool.RemoveOne` | bot.py:178 | Moving out a name that a repeat-free listing holds shortens it by exactly one |
| `ConfigPool.ConfigsRemove` | bot.py:49 | The `.conf` filter of the listing after a move equals the filter before the move with that name removed |
| `ConfigPool.MoveOutConfig` | bot.py:172-178 | Moving an available configuration takes exactly that name out of `check_configs`' result, keeps the others in order, and lowers the count by one |
| `CallbackToken.Split` | bot.py:152 | `split('_')` yields at least one piece, no piece contains `_`, and joining the pieces with `_` gives back the input |
| `CallbackToken.SplitNoSep` | bot.py:152 | A string without `_` splits into itself alone |
| `CallbackToken.SplitAtFirstSep` | bot.py:152 | Splitting `a + "_" + b` with `a` free of `_` gives `a` followed by the split of `b` |
| `CallbackToken.SplitJoin` | bot.py:152 | Split undoes Join for any non-empty list of `_`-free pieces (the inverse of the `Split` round trip) |
| `CallbackToken.ParseInt` | bot.py:153 | An accepted id piece is non-empty and contains no `_` |
| `CallbackToken.ShowNat` | bot.py:122-123 | `str(n)` for a natural number is a non-empty string of decimal digits whose value is n |
| `CallbackToken.Show` | bot.py:122-123 | `int(str(n)) == n` for every integer id, and `str(n)` contains no `_` |
| `CallbackToken.ParseToken` | bot.py:152-153 | Every accepted payload is a `_`-free action, one `_`, then an integer literal whose value is the id |
| `CallbackToken.FormatToken` | bot.py:121-125 | A button payload `f"{action}_{user.id}"` with a `_`-free action parses back to exactly that action and id |
| `CallbackToken.LeadingZero` | bot.py:153 | `int()` ignores a leading zero: prefixing `0` to a digit string keeps its value |
| `CallbackToken.PaddedIdAccepted` | bot.py:152-153 | A payload with a zero-padded id, which no button carries, is accepted and decodes to the same action and id as the button's payload |
| `CallbackToken.ParseTokenAccepts` | bot.py:152-153 | With a `_`-free action and id piece, the payload is accepted exactly when the id piece is an integer literal, and then yields that action and value |
| `Allocation.Request` | bot.py:79-144 | get_config never changes the pool or other users' entries. A failed probe gives "write privately" and changes nothing. No `.conf` left gives "keys ran out" plus an admin alert, with no change. Otherwise the ledger maps the user to the first configuration in listing order, whether or not the admin prompt was delivered |
| `Allocation.RequestPreservesValid` | bot.py:107-108 | get_config keeps the ledger values configuration names and the pool invariant |
| `Allocation.RequestOverwrites` | bot.py:107-108 | A repeated request overwrites the user's entry with the current first configuration; the ledger grows only for a user without an entry |
| `Allocation.Lookup` | bot.py:154-156 | While every ledger value is a configuration name, `not pending_requests.get(id)` holds exactly when the id has no entry; a truthy result is the user's entry |
| `Allocation.Decide` | bot.py:146-203 | An issued configuration has reached the user, and only an available file is ever sent. The pool changes only on issue, by moving exactly that available file to used; a sent file whose move fails stays available. The ledger loses at most the decided user's entry and gains nothing. A malformed payload gives the generic error. Unparsable, not-found and unknown-action decisions leave every store unchanged |
| `Allocation.DecidePreservesValid` | bot.py:154-199 | handle_admin_callback keeps the listing repeat-free, available and used disjoint, and ledger values configuration names |
| `Allocation.DecideByParse` | bot.py:152-203 | Every callback payload, not only a button's own, is decided by what it parses to: two payloads with the same action and id take the same branch with the same result |
| `Allocation.MalformedPayload` | bot.py:201-203 | A payload that does not split into two pieces, or whose id is not an integer, leaves ledger and pool unchanged and gives the generic error |
| `Allocation.NoEntryIsNoOp` | bot.py:154-158 | A decision for a user without an entry answers "not found or already handled" and changes nothing |
| `Allocation.ApproveDelivered` | bot.py:168-186 | For any payload that parses to approve and the user, approve with working chat, transport and move: the reserved file is sent and moved to used. The `.conf` count drops by one, the used count grows by one, and the user's entry is removed |
| `Allocation.ApproveUndelivered` | bot.py:172-186 | Approve when sending fails or the file is already gone: nothing is sent or moved, and the entry is still removed |
| `Allocation.SentButNotMoved` | bot.py:172-186 | Approve where the document is sent but the move fails: the user has the file, the admin sees an error, the file stays available, the entry is dropped, and the next requester is given the same file |
| `Allocation.RejectReleases` | bot.py:188-199 | Reject: the pool is untouched and the entry is removed. The rejection notice arrives exactly when notifying succeeds |
| `Allocation.NotifyNonFatal` | bot.py:189-195 | Whether the rejection notice can be sent changes neither the stores nor the admin's reply |
| `Allocation.ProbeFailedReleases` | bot.py:160-166 | An unreachable user, whatever the action: entry removed, pool untouched, nothing reaches the user |
| `Allocation.UnknownActionKeepsEntry` | bot.py:168-199 | An action word other than approve or reject, with a reachable user, changes nothing |
| `Allocation.ReplayIsNoOp` | bot.py:154-158 | Once an approve or reject has run, pressing the same button again answers "not found" and changes nothing, whatever the chat outcomes |
| `Handlers.Bot.constructor` | bot.py:39-40 | The bot starts with the provisioned directories and an empty ledger |
| `Handlers.Bot.GetConfig` | bot.py:79-144 | Updates the ledger in place exactly as `Request` says. It leaves both directories unchanged and keeps `Valid` |
| `Handlers.Bot.HandleAdminCallback` | bot.py:146-203 | Updates ledger and directories in place exactly as `Decide` says (the move only after a successful send), and keeps `Valid` |
| `Scenarios.SameFileForTwoUsers` | bot.py:107-108 | Two users who request in turn both get the first configuration. Approving the first issues it. Approving the second then fails delivery whatever the transport does: the pool is not touched again and the second entry is dropped |
| `Scenarios.ApproveBothHolders` | bot.py:168-186 | From any valid store where two users hold the same available file, approving the first issues it and approving the second then fails delivery whatever the transport does, dropping both entries |
| `Scenarios.ThreeRequestersShareFirst` | bot.py:97-108 | With `a.conf` and `b.conf` available, three requesters are all given `a.conf` and none is told the pool is exhausted |
| `Scenarios.FirstApprovalIssuesShared` | bot.py:168-186 | From those three reservations, approving the first user sends `a.conf`, moves it to used and leaves the other two entries |
| `Scenarios.LaterDecisionsAfterShared` | bot.py:154-186 | After that, replaying the first approval answers "not found" with no change. Approving the second user fails, sends nothing and drops the entry. The next request is given `b.conf` |
| `Scenarios.ExhaustedPool` | bot.py:97-105 | With no `.conf` names listed, a reachable requester is told the keys ran out, the admin is alerted, and nothing changes |

## Left out

- Telegram I/O (`send_chat_action`, `send_message`, `send_document`, `edit_message_text`, `reply_text`): each is an outcome parameter or a message kind, except the edits and replies of the next line. Message texts, the request timestamp and the username formatting are presentation only.
- A failing `query.answer`, `edit_message_text` or `reply_text` is not modelled; every answer, edit and reply is taken to succeed. In the source:
  - a failed `query.answer` at bot.py:149 (an expired query, say) runs outside the `try` that starts at bot.py:151, so it raises before the payload is parsed: no decision is applied and the ledger entry stays, a path `Decide` does not have;
  - a failed edit of the admin's message at bot.py:164 or bot.py:197 raises before the `del` that follows, so the ledger entry would stay;
  - a failed edit or reply to the requester at bot.py:101/103 raises before `notify_admin` at bot.py:104, so no exhaustion alert is sent, whereas `Request` always pairs "keys ran out" with the alert;
  - a failed edit or reply at bot.py:135/137 is caught at bot.py:138, so the requester is told of an error although the prompt reached the admin.
- `start`, `handle_button`, `notify_admin` and `main` (handler registration, polling) are transport wiring. `notify_admin` swallows its own errors, so only the attempted exhaustion alert is modelled.
- Directory creation in `check_configs`, `.env` loading, path construction and logging are start-up plumbing.
- File contents and the mechanics of `shutil.move`: files are names, and a move either succeeds whole (`moveOk`) or leaves both directories as they were. The listing after a move is the old listing without the moved name, in the same order; the real enumeration order of a directory may change. Files added to or removed from the directories by anyone but the bot between handler runs are not modelled.
- `CallbackToken.ParseInt`: Python's `int()` also accepts surrounding whitespace and non-ASCII decimal digits. The model accepts only an optional `+`/`-` followed by ASCII digits. Underscores cannot reach it, because the payload was split on them.
- A callback query without data (`query.data` is `None`) is not modelled; the payload is always a string.
- Concurrency: the handlers are `async` and not locked. Each handler run is taken as atomic.
