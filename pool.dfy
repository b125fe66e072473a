/**
 * The pool of WireGuard configuration files.
 *
 * The pool is two directories: `configs/available`, whose listing
 * `check_configs` filters down to the `.conf` names, and `configs/used`,
 * where a configuration goes once it has been handed out. Files are modelled
 * by their names only; the listing is a sequence in the order the directory
 * enumerates it.
 */
module ConfigPool {

  /** The extension that marks a configuration file. */
  const ConfExt: string := ".conf"

  predicate EndsWith(s: string, suffix: string)
  {
    |suffix| <= |s| && s[|s| - |suffix|..] == suffix
  }

  /** `f.endswith('.conf')`; such a name is never the empty (falsy) string. */
  predicate IsConfig(name: string)
    ensures IsConfig(name) ==> name != ""
  {
    EndsWith(name, ConfExt)
  }

  /** No name occurs twice (a directory listing never repeats a name). */
  predicate NoDup(s: seq<string>)
  {
    s == [] || (s[0] !in s[1..] && NoDup(s[1..]))
  }

  /** `a` is `b` with some elements dropped and the rest kept in order. */
  predicate IsSubsequence(a: seq<string>, b: seq<string>)
    decreases |b|
  {
    a == [] ||
    (b != [] &&
     if a[0] == b[0] then IsSubsequence(a[1..], b[1..]) else IsSubsequence(a, b[1..]))
  }

  /**
   * `[f for f in os.listdir(AVAILABLE_DIR) if f.endswith('.conf')]`: exactly
   * the configuration names of the listing, each as often as it is listed,
   * in listing order.
   */
  function Configs(listing: seq<string>): (configs: seq<string>)
    ensures forall f :: f in configs <==> f in listing && IsConfig(f)
    ensures forall f :: multiset(configs)[f] == if IsConfig(f) then multiset(listing)[f] else 0
    ensures IsSubsequence(configs, listing)
    ensures NoDup(listing) ==> NoDup(configs)
  {
    if listing == [] then []
    else
      var rest := Configs(listing[1..]);
      assert listing == [listing[0]] + listing[1..];
      if IsConfig(listing[0]) then
        assert ([listing[0]] + rest)[1..] == rest;
        [listing[0]] + rest
      else
        rest
  }

  /** The listing after the file `name` has been moved out of the directory. */
  function Remove(listing: seq<string>, name: string): (r: seq<string>)
    ensures forall f :: f in r <==> f in listing && f != name
    ensures IsSubsequence(r, listing)
    ensures NoDup(listing) ==> NoDup(r)
    ensures name !in listing ==> r == listing
  {
    if listing == [] then []
    else
      var rest := Remove(listing[1..], name);
      assert listing == [listing[0]] + listing[1..];
      if listing[0] == name then
        rest
      else
        assert ([listing[0]] + rest)[1..] == rest;
        [listing[0]] + rest
  }

  /** Moving a name out of a listing that holds it once shortens the listing by exactly one. */
  lemma {:induction false} RemoveOne(listing: seq<string>, name: string)
    requires NoDup(listing) && name in listing
    ensures |Remove(listing, name)| == |listing| - 1
  {
    if listing[0] != name {
      RemoveOne(listing[1..], name);
    }
  }

  /** Filtering for configurations and moving a name out commute. */
  lemma {:induction false} ConfigsRemove(listing: seq<string>, name: string)
    ensures Configs(Remove(listing, name)) == Remove(Configs(listing), name)
  {
    if listing != [] {
      ConfigsRemove(listing[1..], name);
    }
  }

  /**
   * Moving a configuration that the listing holds once takes exactly that name
   * out of check_configs' result and keeps every other configuration in order.
   */
  lemma MoveOutConfig(listing: seq<string>, name: string)
    requires NoDup(listing) && name in listing && IsConfig(name)
    ensures Configs(Remove(listing, name)) == Remove(Configs(listing), name)
    ensures |Configs(Remove(listing, name))| == |Configs(listing)| - 1
    ensures name !in Configs(Remove(listing, name))
  {
    ConfigsRemove(listing, name);
    RemoveOne(Configs(listing), name);
  }
}
