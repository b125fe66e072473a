/**
 * Runs of several handler calls in a row, as the bot behaves on them.
 *
 * Reservation does not take a configuration out of the pool, so every
 * request is handed the same first configuration until it is issued; the
 * lemmas here follow the consequences through to the admin's decisions.
 */
module Scenarios {
  import opened Wrappers
  import opened CallbackToken
  import opened ConfigPool
  import opened Allocation

  /**
   * Two reachable users who request one after the other are both given the
   * first configuration. Approving the first issues it; approving the second
   * then cannot open the file, so nothing more is issued and the second
   * user's reservation is simply dropped.
   */
  lemma SameFileForTwoUsers(st: Store, u1: int, u2: int, sent1: bool, sent2: bool,
                            notify1: bool, delivery2: bool, move2: bool, notify2: bool)
    requires Valid(st)
    requires u1 != u2
    requires Configs(st.available) != []
    ensures var file := Configs(st.available)[0];
            var s1 := Request(st, u1, true, sent1).after;
            var s2 := Request(s1, u2, true, sent2).after;
            var d1 := Decide(s2, FormatToken(Callback("approve", u1)), true, true, true, notify1);
            var d2 := Decide(d1.after, FormatToken(Callback("approve", u2)), true, delivery2, move2, notify2);
            && s2.pending[u1] == file && s2.pending[u2] == file
            && d1.reply == Issued(u1, file)
            && d2.reply == DeliveryError(u2)
            && d2.toUser == NoUserNotice
            && d2.after.available == d1.after.available && d2.after.used == d1.after.used
            && u1 !in d2.after.pending && u2 !in d2.after.pending
  {
    var file := Configs(st.available)[0];
    assert file in Configs(st.available);
    RequestPreservesValid(st, u1, true, sent1);
    var s1 := Request(st, u1, true, sent1).after;
    RequestPreservesValid(s1, u2, true, sent2);
    var s2 := Request(s1, u2, true, sent2).after;
    assert Sep !in "approve";
    ApproveBothHolders(s2, file, u1, u2, FormatToken(Callback("approve", u1)), FormatToken(Callback("approve", u2)),
                       notify1, delivery2, move2, notify2);
  }

  /** The decisions of `SameFileForTwoUsers`, from any store where both users hold the same available file. */
  lemma ApproveBothHolders(st: Store, file: string, u1: int, u2: int, t1: string, t2: string,
                           notify1: bool, delivery2: bool, move2: bool, notify2: bool)
    requires Valid(st) && u1 != u2
    requires ParseToken(t1) == Some(Callback("approve", u1)) && ParseToken(t2) == Some(Callback("approve", u2))
    requires u1 in st.pending && u2 in st.pending && st.pending[u1] == file && st.pending[u2] == file
    requires file in st.available
    ensures var d1 := Decide(st, t1, true, true, true, notify1);
            var d2 := Decide(d1.after, t2, true, delivery2, move2, notify2);
            && d1.reply == Issued(u1, file)
            && d2.reply == DeliveryError(u2)
            && d2.toUser == NoUserNotice
            && d2.after.available == d1.after.available && d2.after.used == d1.after.used
            && u1 !in d2.after.pending && u2 !in d2.after.pending
  {
    ApproveDelivered(st, t1, u1, notify1);
    var d1 := Decide(st, t1, true, true, true, notify1);
    DecidePreservesValid(st, t1, true, true, true, notify1);
    assert u2 in d1.after.pending && d1.after.pending[u2] == file;
    assert file !in d1.after.available;
    ApproveUndelivered(d1.after, t2, u2, delivery2, move2, notify2);
  }

  /** Two configurations and three reachable requesters: all three are given "a.conf" and nobody sees the pool as exhausted. */
  lemma ThreeRequestersShareFirst(u1: int, u2: int, u3: int)
    ensures var s1 := Request(Store(["a.conf", "b.conf"], {}, map[]), u1, true, true);
            var s2 := Request(s1.after, u2, true, true);
            var s3 := Request(s2.after, u3, true, true);
            && s1.notice == ApprovalPrompt(u1, "a.conf")
            && s2.notice == ApprovalPrompt(u2, "a.conf")
            && s3.notice == ApprovalPrompt(u3, "a.conf")
            && s3.after == Store(["a.conf", "b.conf"], {}, map[u1 := "a.conf", u2 := "a.conf", u3 := "a.conf"])
  {
    assert IsConfig("a.conf") && IsConfig("b.conf");
    assert Configs(["a.conf", "b.conf"]) == ["a.conf", "b.conf"];
  }

  /** Continuing from those three reservations: approving the first user issues "a.conf". */
  lemma FirstApprovalIssuesShared(u1: int, u2: int, u3: int, notify: bool)
    requires u1 != u2 && u1 != u3 && u2 != u3
    ensures var st := Store(["a.conf", "b.conf"], {}, map[u1 := "a.conf", u2 := "a.conf", u3 := "a.conf"]);
            var approve1 := Decide(st, FormatToken(Callback("approve", u1)), true, true, true, notify);
            && approve1.reply == Issued(u1, "a.conf")
            && approve1.toUser == ConfigDocument("a.conf")
            && approve1.after == Store(["b.conf"], {"a.conf"}, map[u2 := "a.conf", u3 := "a.conf"])
  {
    var st := Store(["a.conf", "b.conf"], {}, map[u1 := "a.conf", u2 := "a.conf", u3 := "a.conf"]);
    assert ParseToken(FormatToken(Callback("approve", u1))) == Some(Callback("approve", u1));
    assert Lookup(st.pending, u1) == "a.conf";
    assert Remove(["a.conf", "b.conf"], "a.conf") == ["b.conf"];
    assert st.pending - {u1} == map[u2 := "a.conf", u3 := "a.conf"];
  }

  /**
   * After that: replaying the first approval finds nothing; approving the
   * second user fails because "a.conf" is gone and drops the entry; the next
   * request is given "b.conf".
   */
  lemma LaterDecisionsAfterShared(u1: int, u2: int, u3: int, u4: int, notify: bool)
    requires u1 != u2 && u1 != u3 && u2 != u3
    ensures var mid := Store(["b.conf"], {"a.conf"}, map[u2 := "a.conf", u3 := "a.conf"]);
            var replay := Decide(mid, FormatToken(Callback("approve", u1)), true, true, true, notify);
            var approve2 := Decide(mid, FormatToken(Callback("approve", u2)), true, true, true, notify);
            var s4 := Request(approve2.after, u4, true, true);
            && replay == DecisionStep(mid, NotFound, NoUserNotice)
            && approve2.reply == DeliveryError(u2)
            && approve2.toUser == NoUserNotice
            && approve2.after == Store(["b.conf"], {"a.conf"}, map[u3 := "a.conf"])
            && s4.notice == ApprovalPrompt(u4, "b.conf")
  {
    var mid := Store(["b.conf"], {"a.conf"}, map[u2 := "a.conf", u3 := "a.conf"]);
    assert IsConfig("a.conf") && IsConfig("b.conf");
    assert Valid(mid);
    NoEntryIsNoOp(mid, FormatToken(Callback("approve", u1)), "approve", u1, true, true, true, notify);
    ApproveUndelivered(mid, FormatToken(Callback("approve", u2)), u2, true, true, notify);
    assert mid.pending - {u2} == map[u3 := "a.conf"];
    assert Configs(["b.conf"]) == ["b.conf"];
  }

  /** Once no listed name ends in ".conf", a reachable requester is told the keys ran out and the admin is alerted. */
  lemma ExhaustedPool(used: set<string>, pending: map<int, string>, user: int, sent: bool)
    ensures var st := Store(["a.conf.bak", "notes.txt"], used, pending);
            Request(st, user, true, sent) == RequestStep(st, KeysRanOut, ExhaustionAlert)
  {
    assert !IsConfig("a.conf.bak") && !IsConfig("notes.txt");
  }
}
