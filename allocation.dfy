/**
 * The allocation state machine of the bot, as values.
 *
 * A `Store` is everything the two handlers read and write: the listing of
 * the available directory, the names in the used directory, and the
 * `pending_requests` ledger from user id to the configuration reserved for
 * that user. `Request` is one run of `get_config`, `Decide` one run of
 * `handle_admin_callback`; every chat call they make is an outcome parameter.
 * Each handler runs to completion before the next one starts.
 */
module Allocation {
  import opened Wrappers
  import opened CallbackToken
  import opened ConfigPool

  datatype Store = Store(available: seq<string>, used: set<string>, pending: map<int, string>)

  /**
   * What the stores look like between handler runs: the available listing
   * repeats no name, no available name is also in the used directory, and
   * every reservation names a configuration file.
   */
  predicate Valid(st: Store)
  {
    && NoDup(st.available)
    && (forall f :: f in st.available ==> f !in st.used)
    && (forall u :: u in st.pending ==> IsConfig(st.pending[u]))
  }

  // ---------------------------------------------------------------------------
  // get_config

  /** The reply the requester sees. */
  datatype RequestReply =
    | WritePrivately   // the chat probe failed: "write to me privately"
    | KeysRanOut       // no configuration is left; the admin is alerted
    | SentToAdmin      // the approval prompt reached the admin
    | ProcessingError  // the approval prompt could not be sent

  /** The message get_config tries to send to the admin. */
  datatype AdminNotice =
    | NoNotice
    | ExhaustionAlert
    | ApprovalPrompt(user: int, file: string)  // carries the approve/reject buttons for `user`

  datatype RequestStep = RequestStep(after: Store, reply: RequestReply, notice: AdminNotice)

  /**
   * One run of get_config for `user`. `probeOk` is whether the typing action
   * reached the user's chat; `adminSendOk` whether the prompt reached the admin.
   */
  function Request(st: Store, user: int, probeOk: bool, adminSendOk: bool): (r: RequestStep)
    // the pool is never touched by a request
    ensures r.after.available == st.available && r.after.used == st.used
    // no other user's reservation changes
    ensures forall u :: u != user ==> (u in r.after.pending <==> u in st.pending)
    ensures forall u :: u != user && u in st.pending ==> r.after.pending[u] == st.pending[u]
    ensures r.reply == WritePrivately <==> !probeOk
    ensures r.reply == KeysRanOut <==> probeOk && Configs(st.available) == []
    ensures r.notice == ExhaustionAlert <==> r.reply == KeysRanOut
    ensures r.notice.ApprovalPrompt? <==> probeOk && Configs(st.available) != []
    // a reservation names the first configuration in listing order, whatever the user held before
    ensures r.notice.ApprovalPrompt? ==>
              && r.notice.user == user
              && r.notice.file == Configs(st.available)[0]
              && r.after.pending == st.pending[user := r.notice.file]
    ensures !r.notice.ApprovalPrompt? ==> r.after == st
    // the ledger entry does not depend on whether the admin was reached
    ensures r.notice.ApprovalPrompt? ==> (r.reply == SentToAdmin <==> adminSendOk)
  {
    if !probeOk then
      RequestStep(st, WritePrivately, NoNotice)
    else
      var configs := Configs(st.available);
      if configs == [] then
        RequestStep(st, KeysRanOut, ExhaustionAlert)
      else
        var file := configs[0];
        var after := st.(pending := st.pending[user := file]);
        RequestStep(after, if adminSendOk then SentToAdmin else ProcessingError, ApprovalPrompt(user, file))
  }

  // ---------------------------------------------------------------------------
  // handle_admin_callback

  /** The text the admin's prompt is edited to. */
  datatype AdminReply =
    | CallbackError              // the payload did not parse
    | NotFound                   // "request not found or already handled"
    | UserUnreachable(user: int) // the chat probe failed
    | Issued(user: int, file: string)
    | DeliveryError(user: int)   // opening, sending or moving the document failed
    | Rejected(user: int)
    | NoReply                    // an action other than approve or reject

  /** What reaches the requester. */
  datatype UserNotice = NoUserNotice | ConfigDocument(file: string) | RejectionNotice

  datatype DecisionStep = DecisionStep(after: Store, reply: AdminReply, toUser: UserNotice)

  /**
   * `pending_requests.get(user_id)`, with "" standing for the falsy result.
   * While every reservation names a configuration file, the result is falsy
   * exactly when the user has no entry.
   */
  function Lookup(pending: map<int, string>, user: int): (file: string)
    ensures (forall u :: u in pending ==> IsConfig(pending[u])) ==> (file == "" <==> user !in pending)
    ensures file != "" ==> user in pending && pending[user] == file
  {
    if user in pending then pending[user] else ""
  }

  /**
   * One run of handle_admin_callback on the button payload `data`.
   * `probeOk`: the typing action reached the user; `deliveryOk`: send_document
   * succeeds once the file is open (the file itself must still be in the
   * available directory); `moveOk`: shutil.move of the sent file succeeds;
   * `notifyOk`: the rejection message reached the user.
   */
  function Decide(st: Store, data: string, probeOk: bool, deliveryOk: bool, moveOk: bool, notifyOk: bool): (r: DecisionStep)
    // an issued configuration has reached the user; a sent one was available
    ensures r.reply.Issued? ==> r.toUser == ConfigDocument(r.reply.file)
    ensures r.toUser.ConfigDocument? ==> r.toUser.file in st.available
    // the pool changes only by moving the delivered file, and only after delivery
    ensures r.reply.Issued? ==>
              && r.reply.file in st.available
              && r.after.available == Remove(st.available, r.reply.file)
              && r.after.used == st.used + {r.reply.file}
    ensures !r.reply.Issued? ==> r.after.available == st.available && r.after.used == st.used
    // the ledger loses at most the entry of the decided user, and gains nothing
    ensures r.after.pending == st.pending ||
            (ParseToken(data).Some? && r.after.pending == st.pending - {ParseToken(data).value.user})
    ensures r.reply == CallbackError <==> ParseToken(data).None?
    ensures r.reply in {CallbackError, NotFound, NoReply} ==> r.after == st
  {
    match ParseToken(data)
    case None => DecisionStep(st, CallbackError, NoUserNotice)
    case Some(cb) =>
      var user := cb.user;
      var file := Lookup(st.pending, user);
      if file == "" then
        DecisionStep(st, NotFound, NoUserNotice)
      else if !probeOk then
        DecisionStep(st.(pending := st.pending - {user}), UserUnreachable(user), NoUserNotice)
      else if cb.action == "approve" then
        if deliveryOk && file in st.available then
          if moveOk then
            var moved := Store(Remove(st.available, file), st.used + {file}, st.pending - {user});
            DecisionStep(moved, Issued(user, file), ConfigDocument(file))
          else
            // the document was sent, but the file stays in the available directory
            DecisionStep(st.(pending := st.pending - {user}), DeliveryError(user), ConfigDocument(file))
        else
          DecisionStep(st.(pending := st.pending - {user}), DeliveryError(user), NoUserNotice)
      else if cb.action == "reject" then
        DecisionStep(st.(pending := st.pending - {user}), Rejected(user),
                     if notifyOk then RejectionNotice else NoUserNotice)
      else
        DecisionStep(st, NoReply, NoUserNotice)
  }

  // ---------------------------------------------------------------------------
  // Invariants

  /** get_config keeps the stores well formed. */
  lemma RequestPreservesValid(st: Store, user: int, probeOk: bool, adminSendOk: bool)
    requires Valid(st)
    ensures Valid(Request(st, user, probeOk, adminSendOk).after)
  {
    var r := Request(st, user, probeOk, adminSendOk);
    if r.notice.ApprovalPrompt? {
      var configs := Configs(st.available);
      assert configs[0] in configs;
    }
  }

  /** handle_admin_callback keeps the stores well formed. */
  lemma DecidePreservesValid(st: Store, data: string, probeOk: bool, deliveryOk: bool, moveOk: bool, notifyOk: bool)
    requires Valid(st)
    ensures Valid(Decide(st, data, probeOk, deliveryOk, moveOk, notifyOk).after)
  {
  }

  // ---------------------------------------------------------------------------
  // Decisions, branch by branch

  /**
   * Any callback data reaches handle_admin_callback, not only the payloads of
   * the bot's own buttons: two payloads that parse to the same action and id
   * (`approve_7`, `approve_007`, `approve_+7`) take the same branch.
   */
  lemma DecideByParse(st: Store, d1: string, d2: string, probeOk: bool, deliveryOk: bool, moveOk: bool, notifyOk: bool)
    requires ParseToken(d1) == ParseToken(d2)
    ensures Decide(st, d1, probeOk, deliveryOk, moveOk, notifyOk) == Decide(st, d2, probeOk, deliveryOk, moveOk, notifyOk)
  {
  }

  /** A payload that does not split into two parts or whose id is not an integer changes nothing. */
  lemma MalformedPayload(st: Store, data: string, probeOk: bool, deliveryOk: bool, moveOk: bool, notifyOk: bool)
    requires |Split(data)| != 2 || ParseInt(Split(data)[1]).None?
    ensures Decide(st, data, probeOk, deliveryOk, moveOk, notifyOk) == DecisionStep(st, CallbackError, NoUserNotice)
  {
  }

  /** A decision about a user with no reservation answers "not found" and changes nothing. */
  lemma NoEntryIsNoOp(st: Store, data: string, action: string, user: int,
                      probeOk: bool, deliveryOk: bool, moveOk: bool, notifyOk: bool)
    requires ParseToken(data) == Some(Callback(action, user))
    requires user !in st.pending
    ensures Decide(st, data, probeOk, deliveryOk, moveOk, notifyOk) == DecisionStep(st, NotFound, NoUserNotice)
  {
  }

  /**
   * Approving with a working chat, transport and move: the reserved file is
   * issued, it moves from the available listing to the used directory, the
   * pool's configuration count drops by one, and the ledger entry is gone.
   */
  lemma ApproveDelivered(st: Store, data: string, user: int, notifyOk: bool)
    requires ParseToken(data) == Some(Callback("approve", user))
    requires Valid(st)
    requires user in st.pending && st.pending[user] in st.available
    ensures var file := st.pending[user];
            var r := Decide(st, data, true, true, true, notifyOk);
            && r.reply == Issued(user, file)
            && r.toUser == ConfigDocument(file)
            && Configs(r.after.available) == Remove(Configs(st.available), file)
            && |Configs(r.after.available)| == |Configs(st.available)| - 1
            && r.after.used == st.used + {file} && |r.after.used| == |st.used| + 1
            && r.after.pending == st.pending - {user}
  {
    var file := st.pending[user];
    assert IsConfig(file);
    MoveOutConfig(st.available, file);
  }

  /**
   * Approving when the document cannot be sent, or when the reserved file has
   * already left the available directory: nothing is sent or moved, and the
   * ledger entry is dropped all the same.
   */
  lemma ApproveUndelivered(st: Store, data: string, user: int, deliveryOk: bool, moveOk: bool, notifyOk: bool)
    requires ParseToken(data) == Some(Callback("approve", user))
    requires Valid(st)
    requires user in st.pending
    requires !deliveryOk || st.pending[user] !in st.available
    ensures var r := Decide(st, data, true, deliveryOk, moveOk, notifyOk);
            && r.reply == DeliveryError(user)
            && r.toUser == NoUserNotice
            && r.after == st.(pending := st.pending - {user})
  {
  }

  /**
   * Approving when the document is sent but moving it fails: the user has the
   * file, the admin is shown an error, the file stays available and the ledger
   * entry is dropped, so the very same file is the next one handed out.
   */
  lemma SentButNotMoved(st: Store, data: string, user: int, other: int, notifyOk: bool, sent: bool)
    requires ParseToken(data) == Some(Callback("approve", user))
    requires Valid(st)
    requires user in st.pending && st.pending[user] in st.available
    requires Configs(st.available) != [] && Configs(st.available)[0] == st.pending[user]
    ensures var file := st.pending[user];
            var r := Decide(st, data, true, true, false, notifyOk);
            && r.reply == DeliveryError(user)
            && r.toUser == ConfigDocument(file)
            && r.after == st.(pending := st.pending - {user})
            && Request(r.after, other, true, sent).notice == ApprovalPrompt(other, file)
  {
  }

  /**
   * Rejecting: the pool is untouched, the ledger entry is dropped, and the
   * rejection message reaches the user exactly when sending it succeeds.
   */
  lemma RejectReleases(st: Store, data: string, user: int, deliveryOk: bool, moveOk: bool, notifyOk: bool)
    requires ParseToken(data) == Some(Callback("reject", user))
    requires Valid(st)
    requires user in st.pending
    ensures var r := Decide(st, data, true, deliveryOk, moveOk, notifyOk);
            && r.reply == Rejected(user)
            && (r.toUser == RejectionNotice <==> notifyOk)
            && r.after == st.(pending := st.pending - {user})
  {
  }

  /** Failing to notify a rejected user is not fatal: stores and admin reply are the same. */
  lemma NotifyNonFatal(st: Store, data: string, probeOk: bool, deliveryOk: bool, moveOk: bool)
    ensures var ok := Decide(st, data, probeOk, deliveryOk, moveOk, true);
            var failed := Decide(st, data, probeOk, deliveryOk, moveOk, false);
            ok.after == failed.after && ok.reply == failed.reply
  {
  }

  /**
   * An unreachable user: whatever the action, the ledger entry is dropped,
   * the pool is untouched and nothing reaches the user.
   */
  lemma ProbeFailedReleases(st: Store, data: string, action: string, user: int,
                            deliveryOk: bool, moveOk: bool, notifyOk: bool)
    requires ParseToken(data) == Some(Callback(action, user))
    requires Valid(st)
    requires user in st.pending
    ensures var r := Decide(st, data, false, deliveryOk, moveOk, notifyOk);
            && r.reply == UserUnreachable(user)
            && r.toUser == NoUserNotice
            && r.after == st.(pending := st.pending - {user})
  {
  }

  /** An action word other than approve or reject leaves a reachable user's entry in place. */
  lemma UnknownActionKeepsEntry(st: Store, data: string, action: string, user: int,
                                deliveryOk: bool, moveOk: bool, notifyOk: bool)
    requires ParseToken(data) == Some(Callback(action, user))
    requires action != "approve" && action != "reject"
    ensures Decide(st, data, true, deliveryOk, moveOk, notifyOk).after == st
  {
  }

  /**
   * Replaying a decision that was handled is a no-op: once an approve or a
   * reject has run, the same button answers "not found" and changes nothing,
   * whatever the chat does the second time.
   */
  lemma ReplayIsNoOp(st: Store, data: string, action: string, user: int,
                     probe1: bool, delivery1: bool, move1: bool, notify1: bool,
                     probe2: bool, delivery2: bool, move2: bool, notify2: bool)
    requires ParseToken(data) == Some(Callback(action, user))
    requires action == "approve" || action == "reject"
    ensures var first := Decide(st, data, probe1, delivery1, move1, notify1);
            Decide(first.after, data, probe2, delivery2, move2, notify2)
              == DecisionStep(first.after, NotFound, NoUserNotice)
  {
  }

  // ---------------------------------------------------------------------------
  // Requests

  /**
   * A second request from the same user is not refused: it overwrites the
   * user's reservation with the current first configuration, and the ledger
   * keeps one entry per user.
   */
  lemma RequestOverwrites(st: Store, user: int, adminSendOk: bool)
    requires Configs(st.available) != []
    ensures var r := Request(st, user, true, adminSendOk);
            && r.after.pending[user] == Configs(st.available)[0]
            && |r.after.pending| == if user in st.pending then |st.pending| else |st.pending| + 1
  {
  }
}
