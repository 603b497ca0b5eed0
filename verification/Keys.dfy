/** Keys, capabilities and selectors (key/key.go, key/capability.go, key/selector.go). */
module Keys {
  import opened Wrappers

  /** Nanoseconds since Go's zero instant; 0 is the instant `time.Time.IsZero` reports. */
  type Time = int

  predicate IsZero(t: Time) { t == 0 }

  const STATUS_ACTIVE := "active"
  const STATUS_PASSIVE := "passive"
  const STATUS_DISABLED := "disabled"

  const USE_SIGNING := "signing"
  const USE_ENCRYPTION := "encryption"

  const OP_SIGN := "sign"
  const OP_VERIFY := "verify"
  const OP_ENCRYPT := "encrypt"
  const OP_DECRYPT := "decrypt"

  /** The use an operation belongs to. */
  function UseFor(operation: string): string {
    if operation == OP_ENCRYPT || operation == OP_DECRYPT then USE_ENCRYPTION else USE_SIGNING
  }

  datatype Capability = Capability(use: string, operation: string, algorithm: string)

  /** Key material is opaque here; the handle stands for its identity. */
  datatype Material = Material(handle: nat)

  /** A backend is known to selection only through the capabilities it supports. */
  datatype Backend = Backend(capabilities: set<Capability>) {
    predicate Supports(capability: Capability) { capability in capabilities }
  }

  datatype KeyCandidate = KeyCandidate(
    id: string, owner: string, source: string, restrictions: seq<Capability>, status: string,
    priority: int, notBefore: Time, notAfter: Time, material: Material)

  datatype Key = Key(
    id: string, owner: string, source: string, restrictions: seq<Capability>, status: string,
    priority: int, notBefore: Time, notAfter: Time, material: Material, backend: Option<Backend>)

  function NewKey(c: KeyCandidate, backend: Backend): Key {
    Key(c.id, c.owner, c.source, c.restrictions, c.status, c.priority, c.notBefore, c.notAfter, c.material,
        Some(backend))
  }

  type SelectorOption = Key -> bool

  function WithId(id: string): SelectorOption { (k: Key) => k.id == id }

  function WithSource(source: string): SelectorOption { (k: Key) => k.source == source }

  function WithoutStatus(status: string): SelectorOption { (k: Key) => k.status != status }

  predicate ValidAt(k: Key, at: Time) {
    && (IsZero(k.notBefore) || !(at < k.notBefore))
    && (IsZero(k.notAfter) || !(at > k.notAfter))
  }

  function WithValidityAt(at: Time): SelectorOption { (k: Key) => ValidAt(k, at) }

  predicate Capable(k: Key, capability: Capability) {
    && k.backend.Some?
    && k.backend.value.Supports(capability)
    && (k.restrictions == [] || capability in k.restrictions)
  }

  function WithCapability(capability: Capability): SelectorOption { (k: Key) => Capable(k, capability) }

  /** The criteria of an `And` call that are not nil. */
  function Present(options: seq<Option<SelectorOption>>): seq<SelectorOption> {
    if options == [] then []
    else
      var rest := Present(options[..|options| - 1]);
      var last := options[|options| - 1];
      if last.Some? then rest + [last.value] else rest
  }

  lemma {:induction false} PresentAll(options: seq<Option<SelectorOption>>, k: Key)
    ensures (forall i | 0 <= i < |Present(options)| :: Present(options)[i](k))
       <==> (forall i | 0 <= i < |options| && options[i].Some? :: options[i].value(k))
  {
    if options != [] {
      var n := |options| - 1;
      var prefix, rest, all := options[..n], Present(options[..n]), Present(options);
      PresentAll(prefix, k);
      assert forall i | 0 <= i < n :: options[i] == prefix[i];
      assert forall i | 0 <= i < |rest| :: all[i] == rest[i];
      if options[n].Some? {
        assert all[|rest|] == options[n].value;
        assert (forall i | 0 <= i < |all| :: all[i](k))
          <==> (forall i | 0 <= i < |rest| :: rest[i](k)) && options[n].value(k);
      } else {
        assert all == rest;
      }
    }
  }

  datatype Selector = Selector(options: seq<SelectorOption>) {

    predicate Accepts(k: Key) { forall i | 0 <= i < |options| :: options[i](k) }

    /** `And`: a fresh selector, the receiver's criteria followed by the non-nil ones given. */
    method And(extra: seq<Option<SelectorOption>>) returns (combined: Selector)
      ensures combined.options == options + Present(extra)
      ensures forall k :: combined.Accepts(k)
                     <==> Accepts(k) && forall i | 0 <= i < |extra| && extra[i].Some? :: extra[i].value(k)
    {
      var list := options;
      for i := 0 to |extra|
        invariant list == options + Present(extra[..i])
      {
        assert extra[..i + 1][..i] == extra[..i];
        if extra[i].Some? {
          list := list + [extra[i].value];
        }
      }
      assert extra[..|extra|] == extra;
      combined := Selector(list);
      forall k
        ensures combined.Accepts(k)
           <==> Accepts(k) && forall i | 0 <= i < |extra| && extra[i].Some? :: extra[i].value(k)
      {
        var added := Present(extra);
        PresentAll(extra, k);
        assert forall i | 0 <= i < |options| :: list[i] == options[i];
        assert forall i | 0 <= i < |added| :: list[|options| + i] == added[i];
      }
    }

    /** `Matches`: true exactly when every criterion accepts the candidate. */
    method Matches(candidate: Key) returns (ok: bool)
      ensures ok == Accepts(candidate)
    {
      for i := 0 to |options|
        invariant forall j | 0 <= j < i :: options[j](candidate)
      {
        if !options[i](candidate) {
          return false;
        }
      }
      return true;
    }
  }

  /** `Select`: a selector built from nothing. */
  function Select(options: seq<SelectorOption>): Selector { Selector(options) }
}
