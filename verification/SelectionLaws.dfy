/** What the outcome of a selection says of the keys, in terms of their fields (key/selector.go,
    key/capability.go, keystore/keystore_api.go). */
module SelectionLaws {
  import opened Wrappers
  import opened Keys
  import opened Selection

  /** The capability an operation needs under an algorithm. */
  function Needed(operation: string, algorithm: string): Capability {
    Capability(if operation in {"encrypt", "decrypt"} then "encryption" else "signing", operation, algorithm)
  }

  /** A bound of zero is no bound. */
  predicate Within(k: Key, now: Time) {
    && (k.notBefore == 0 || k.notBefore <= now)
    && (k.notAfter == 0 || now <= k.notAfter)
  }

  /** No restrictions permit everything. */
  predicate Permits(k: Key, needed: Capability) {
    && k.backend.Some? && needed in k.backend.value.capabilities
    && (k.restrictions == [] || exists i | 0 <= i < |k.restrictions| :: k.restrictions[i] == needed)
  }

  predicate StatusAllows(k: Key, operation: string) {
    && k.status != "disabled"
    && (operation in {"sign", "encrypt"} ==> k.status != "passive")
  }

  /** A selected key is one of the repository's that the request asks for, within its set bounds, capable and
      permitted, never disabled, and not passive when output is produced. */
  lemma SelectedMeans(keys: multiset<Key>, q: Request, k: Key, a: string)
    requires IsChoice(keys, q, Selected(k, a))
    ensures k in keys && a in q.algorithms && q.selector.Accepts(k)
    ensures Within(k, q.now) && Permits(k, Needed(q.operation, a)) && StatusAllows(k, q.operation)
  {
    EligibleMeans(k, q, a);
  }

  lemma EligibleMeans(k: Key, q: Request, a: string)
    ensures Eligible(k, q, a) <==>
      q.selector.Accepts(k) && Within(k, q.now) && Permits(k, Needed(q.operation, a)) && StatusAllows(k, q.operation)
  {
  }

  /** The selection finds no key only if every key lacks one of these for every algorithm. */
  lemma NoneMeans(keys: multiset<Key>, q: Request, k: Key, a: string)
    requires IsChoice(keys, q, NoEligibleKey) && k in keys && a in q.algorithms && q.selector.Accepts(k)
    ensures !Within(k, q.now) || !Permits(k, Needed(q.operation, a)) || !StatusAllows(k, q.operation)
  {
    EligibleMeans(k, q, a);
    var i :| 0 <= i < |q.algorithms| && q.algorithms[i] == a;
    assert NoneEligible(keys, q, q.algorithms[i]);
  }

  /** The whole outcome for a repository of one key and a request for any key. */
  lemma SoleKeyOutcome(k: Key, operation: string, algorithm: string, now: Time, o: Outcome)
    requires IsChoice(multiset{k}, Request(operation, Selector([]), [algorithm], now), o)
    ensures o ==
      if Within(k, now) && Permits(k, Needed(operation, algorithm)) && StatusAllows(k, operation)
      then Selected(k, algorithm) else NoEligibleKey
  {
    var q := Request(operation, Selector([]), [algorithm], now);
    hide Eligible, Within, Permits, StatusAllows;
    EligibleMeans(k, q, algorithm);
    assert q.selector.Accepts(k);
    assert FirstUsable(multiset{k}, q, 0) <==> Eligible(k, q, algorithm);
  }

  /** A key whose bounds were never set is selected at every instant, whatever else is true of the time. */
  lemma UnboundedIsSelected(k: Key, now: Time, o: Outcome)
    requires k.notBefore == 0 && k.notAfter == 0 && k.status == "active" && k.restrictions == []
    requires k.backend.Some? && Capability("signing", "sign", "RS256") in k.backend.value.capabilities
    requires IsChoice(multiset{k}, Request("sign", Selector([]), ["RS256"], now), o)
    ensures o == Selected(k, "RS256")
  {
    SoleKeyOutcome(k, "sign", "RS256", now, o);
  }

  /** The words the source uses for statuses, uses and operations, and which operation has which use. */
  lemma Vocabulary()
    ensures STATUS_ACTIVE == "active" && STATUS_PASSIVE == "passive" && STATUS_DISABLED == "disabled"
    ensures [OP_SIGN, OP_VERIFY, OP_ENCRYPT, OP_DECRYPT] == ["sign", "verify", "encrypt", "decrypt"]
    ensures UseFor("sign") == UseFor("verify") == "signing" && UseFor("encrypt") == UseFor("decrypt") == "encryption"
  {
  }
}
