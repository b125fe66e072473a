/**
 * The callback data carried by the administrator's two decision buttons.
 *
 * `get_config` builds the button payloads as `f"approve_{user.id}"` and
 * `f"reject_{user.id}"`; `handle_admin_callback` takes them apart with
 * `query.data.split('_')`, unpacks exactly two parts and converts the second
 * with `int`. Any other shape raises, which the handler turns into its
 * generic error reply.
 */
module CallbackToken {
  import opened Wrappers

  /** The separator between the action and the user id. */
  const Sep: char := '_'

  /** A decoded button payload: the action word and the requester's id. */
  datatype Callback = Callback(action: string, user: int)

  // ---------------------------------------------------------------------------
  // str.split(Sep)

  /** Glues pieces back together with one separator between neighbours. */
  function Join(parts: seq<string>): string
    requires |parts| >= 1
  {
    if |parts| == 1 then parts[0] else parts[0] + [Sep] + Join(parts[1..])
  }

  /**
   * Python's `s.split('_')`: the pieces between separators, including empty
   * pieces at either end and between adjacent separators.
   */
  function Split(s: string): (parts: seq<string>)
    ensures |parts| >= 1
    ensures forall i :: 0 <= i < |parts| ==> Sep !in parts[i]
    ensures Join(parts) == s
  {
    if s == [] then [""]
    else
      var rest := Split(s[1..]);
      if s[0] == Sep then
        assert ([""] + rest)[1..] == rest;
        [""] + rest
      else
        var parts := [[s[0]] + rest[0]] + rest[1..];
        assert parts[1..] == rest[1..];
        assert s == [s[0]] + s[1..];
        parts
  }

  /** A piece without separators comes back whole. */
  lemma {:induction false} SplitNoSep(a: string)
    requires Sep !in a
    ensures Split(a) == [a]
  {
    if a != [] {
      SplitNoSep(a[1..]);
      assert [a[0]] + a[1..] == a;
    }
  }

  /** Splitting stops at the first separator and continues after it. */
  lemma {:induction false} SplitAtFirstSep(a: string, b: string)
    requires Sep !in a
    ensures Split(a + [Sep] + b) == [a] + Split(b)
  {
    var s := a + [Sep] + b;
    if a == [] {
      assert s[1..] == b;
    } else {
      assert s[1..] == a[1..] + [Sep] + b;
      SplitAtFirstSep(a[1..], b);
      assert [a[0]] + a[1..] == a;
    }
  }

  /** Split undoes Join when no piece holds a separator. */
  lemma {:induction false} SplitJoin(parts: seq<string>)
    requires |parts| >= 1
    requires forall i :: 0 <= i < |parts| ==> Sep !in parts[i]
    ensures Split(Join(parts)) == parts
  {
    if |parts| == 1 {
      SplitNoSep(parts[0]);
    } else {
      SplitJoin(parts[1..]);
      SplitAtFirstSep(parts[0], Join(parts[1..]));
      assert [parts[0]] + parts[1..] == parts;
    }
  }

  // ---------------------------------------------------------------------------
  // int(...) on the id piece

  predicate IsDigit(c: char) { '0' <= c <= '9' }

  predicate AllDigits(s: string) { forall i :: 0 <= i < |s| ==> IsDigit(s[i]) }

  /** The decimal value of a string of digits, most significant first. */
  function DigitsValue(s: string): nat
    requires AllDigits(s)
  {
    if s == [] then 0
    else DigitsValue(s[..|s| - 1]) * 10 + (s[|s| - 1] as int - '0' as int)
  }

  /** `int(t)` for an unsigned literal: one or more decimal digits. */
  function ParseDigits(t: string): Option<nat>
  {
    if t != [] && AllDigits(t) then Some(DigitsValue(t)) else None
  }

  /** `int(t)`: an optional sign followed by one or more decimal digits. */
  function ParseInt(t: string): (r: Option<int>)
    ensures r.Some? ==> t != [] && Sep !in t
  {
    if t != [] && (t[0] == '-' || t[0] == '+') then
      match ParseDigits(t[1..])
      case None => None
      case Some(n) =>
        assert t == [t[0]] + t[1..];
        var v: int := if t[0] == '-' then 0 - (n as int) else n;
        Some(v)
    else
      ParseDigits(t)
  }

  /** The decimal digit for d. */
  function DigitChar(d: nat): (c: char)
    requires d < 10
    ensures IsDigit(c) && c as int - '0' as int == d
  {
    ('0' as int + d) as char
  }

  /** Python's `str(n)` for a natural number: decimal digits that read back as n. */
  function ShowNat(n: nat): (s: string)
    ensures s != [] && AllDigits(s)
    ensures DigitsValue(s) == n
  {
    if n < 10 then [DigitChar(n)]
    else
      var s := ShowNat(n / 10) + [DigitChar(n % 10)];
      assert s[..|s| - 1] == ShowNat(n / 10);
      s
  }

  /**
   * Python's `str(n)` (and the f-string `{n}`) for any integer:
   * `int(str(n)) == n`, and the text holds no separator.
   */
  function Show(n: int): (s: string)
    ensures ParseInt(s) == Some(n)
    ensures Sep !in s
  {
    if n < 0 then
      var s := ['-'] + ShowNat(-n);
      assert s[1..] == ShowNat(-n);
      assert forall i :: 0 <= i < |s| ==> s[i] != Sep;
      s
    else
      var s := ShowNat(n);
      assert forall i :: 0 <= i < |s| ==> s[i] != Sep;
      s
  }

  /** `int()` ignores leading zeros: a zero in front of a digit string keeps its value. */
  lemma {:induction false} LeadingZero(s: string)
    requires AllDigits(s)
    ensures AllDigits(['0'] + s) && DigitsValue(['0'] + s) == DigitsValue(s)
  {
    var z := ['0'] + s;
    if s != [] {
      assert z[..|z| - 1] == ['0'] + s[..|s| - 1];
      LeadingZero(s[..|s| - 1]);
    }
  }

  // ---------------------------------------------------------------------------
  // The whole payload

  /**
   * `action, user_id = data.split('_'); user_id = int(user_id)`; None where
   * that raises. An accepted payload is an action without separators, one
   * separator, and an integer literal whose value is the id.
   */
  function ParseToken(data: string): (r: Option<Callback>)
    ensures r.Some? ==> Sep !in r.value.action
    ensures r.Some? ==> |r.value.action| < |data| && data[..|r.value.action|] == r.value.action
                        && data[|r.value.action|] == Sep
    ensures r.Some? ==> ParseInt(data[|r.value.action| + 1..]) == Some(r.value.user)
  {
    var parts := Split(data);
    if |parts| != 2 then None
    else
      match ParseInt(parts[1])
      case None => None
      case Some(id) =>
        assert Join(parts) == parts[0] + [Sep] + parts[1];
        assert data[|parts[0]| + 1..] == parts[1];
        Some(Callback(parts[0], id))
  }

  /**
   * The payload `f"{action}_{user.id}"` that get_config attaches to a button;
   * with a separator-free action it decodes to the action and id it was built from.
   */
  function FormatToken(cb: Callback): (data: string)
    ensures Sep !in cb.action ==> ParseToken(data) == Some(cb)
  {
    var data := cb.action + [Sep] + Show(cb.user);
    if Sep in cb.action then data
    else
      SplitAtFirstSep(cb.action, Show(cb.user));
      SplitNoSep(Show(cb.user));
      data
  }

  /** A payload with an action piece accepts exactly the integer literals as its id piece. */
  lemma ParseTokenAccepts(action: string, id: string)
    requires Sep !in action && Sep !in id
    ensures ParseToken(action + [Sep] + id).Some? <==> ParseInt(id).Some?
    ensures ParseInt(id).Some? ==> ParseToken(action + [Sep] + id) == Some(Callback(action, ParseInt(id).value))
  {
    SplitAtFirstSep(action, id);
    SplitNoSep(id);
  }

  /**
   * A payload that no button carries can still be accepted: `approve_0…` with
   * a zero-padded id decodes to the same action and id as the button's own
   * payload.
   */
  lemma PaddedIdAccepted(action: string, user: nat)
    requires Sep !in action
    ensures ParseToken(action + [Sep] + (['0'] + Show(user))) == Some(Callback(action, user))
    ensures action + [Sep] + (['0'] + Show(user)) != FormatToken(Callback(action, user))
  {
    var id := ['0'] + Show(user);
    LeadingZero(Show(user));
    assert ParseInt(id) == Some(user);
    assert forall i :: 0 <= i < |id| ==> id[i] != Sep;
    ParseTokenAccepts(action, id);
    assert |action + [Sep] + id| == |FormatToken(Callback(action, user))| + 1;
  }
}
