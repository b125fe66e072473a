/**
 * The bot's mutable state and its two state-changing handlers.
 *
 * The module-level `pending_requests` dict and the two configuration
 * directories become the fields of one `Bot` object; `GetConfig` and
 * `HandleAdminCallback` update them step by step, as the handlers do, and are
 * proved to agree with `Allocation.Request` and `Allocation.Decide`.
 */
module Handlers {
  import opened CallbackToken
  import opened ConfigPool
  import opened Allocation

  class Bot {
    /** The listing of `configs/available`. */
    var available: seq<string>
    /** The names in `configs/used`. */
    var used: set<string>
    /** `pending_requests`: user id to the configuration reserved for that user. */
    var pending: map<int, string>

    function State(): Store
      reads this
    {
      Store(available, used, pending)
    }

    predicate Valid()
      reads this
    {
      Allocation.Valid(State())
    }

    /** Start-up: the directories as provisioned and an empty ledger. */
    constructor (listing: seq<string>, issued: set<string>)
      ensures State() == Store(listing, issued, map[])
      // follows from the line above; spelled out for callers
      ensures Allocation.Valid(Store(listing, issued, map[])) ==> Valid()
    {
      available := listing;
      used := issued;
      pending := map[];
    }

    /**
     * get_config for `user`: probe the user's chat, list the configurations,
     * reserve the first one in the ledger and prompt the admin.
     */
    method GetConfig(user: int, probeOk: bool, adminSendOk: bool) returns (reply: RequestReply, notice: AdminNotice)
      modifies this
      ensures RequestStep(State(), reply, notice) == Request(old(State()), user, probeOk, adminSendOk)
      // follows from the line above and Request's frame; spelled out for callers
      ensures available == old(available) && used == old(used)
      ensures old(Valid()) ==> Valid()
    {
      if Valid() {
        RequestPreservesValid(State(), user, probeOk, adminSendOk);
      }
      if !probeOk {
        reply, notice := WritePrivately, NoNotice;
        return;
      }
      var configs := Configs(available);
      if configs == [] {
        reply, notice := KeysRanOut, ExhaustionAlert;
        return;
      }
      var file := configs[0];
      pending := pending[user := file];
      notice := ApprovalPrompt(user, file);
      if adminSendOk {
        reply := SentToAdmin;
      } else {
        reply := ProcessingError;
      }
    }

    /**
     * handle_admin_callback on the button payload `data`: parse it, look the
     * user up, probe the chat, then send and move the file (approve) or
     * notify (reject), dropping the ledger entry in either case.
     */
    method HandleAdminCallback(data: string, probeOk: bool, deliveryOk: bool, moveOk: bool, notifyOk: bool)
      returns (reply: AdminReply, toUser: UserNotice)
      modifies this
      ensures DecisionStep(State(), reply, toUser) == Decide(old(State()), data, probeOk, deliveryOk, moveOk, notifyOk)
      ensures old(Valid()) ==> Valid()
    {
      if Valid() {
        DecidePreservesValid(State(), data, probeOk, deliveryOk, moveOk, notifyOk);
      }
      toUser := NoUserNotice;
      var parsed := ParseToken(data);
      if parsed.None? {
        reply := CallbackError;
        return;
      }
      var action, userId := parsed.value.action, parsed.value.user;
      var file := Lookup(pending, userId);
      if file == "" {
        reply := NotFound;
        return;
      }
      if !probeOk {
        reply := UserUnreachable(userId);
        pending := pending - {userId};
        return;
      }
      if action == "approve" {
        if deliveryOk && file in available {
          toUser := ConfigDocument(file);
          if moveOk {
            available := Remove(available, file);
            used := used + {file};
            reply := Issued(userId, file);
          } else {
            reply := DeliveryError(userId);
          }
        } else {
          reply := DeliveryError(userId);
        }
        if userId in pending {
          pending := pending - {userId};
        }
      } else if action == "reject" {
        if notifyOk {
          toUser := RejectionNotice;
        }
        reply := Rejected(userId);
        if userId in pending {
          pending := pending - {userId};
        }
      } else {
        reply := NoReply;
      }
    }
  }
}
