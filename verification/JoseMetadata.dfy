/** The restriction metadata of a JWK: `use`, `key_ops` and `alg`. The EC and RSA encoders and decoders
    treat it alike (backend/ec, backend/rsa: setJWKMetadata, restrictionsFromJWK). */
module JoseMetadata {
  import opened Keys

  datatype Metadata = Metadata(use: string, operations: seq<string>, algorithm: string)

  const JWK_SIG := "sig"
  const JWK_ENC := "enc"

  /** Distinct elements in order of first appearance. */
  function Dedup<T(==)>(s: seq<T>): seq<T> {
    if s == [] then []
    else
      var rest := Dedup(s[..|s| - 1]);
      if s[|s| - 1] in rest then rest else rest + [s[|s| - 1]]
  }

  /** The non-empty operations of the restrictions, in order. */
  function Operations(rs: seq<Capability>): seq<string> {
    if rs == [] then []
    else
      var rest := Operations(rs[..|rs| - 1]);
      if rs[|rs| - 1].operation == "" then rest else rest + [rs[|rs| - 1].operation]
  }

  predicate SameUse(rs: seq<Capability>) { forall i | 0 <= i < |rs| :: rs[i].use == rs[0].use }

  predicate SameAlgorithm(rs: seq<Capability>) { forall i | 0 <= i < |rs| :: rs[i].algorithm == rs[0].algorithm }

  function JwkUse(use: string): string {
    if use == USE_SIGNING then JWK_SIG else if use == USE_ENCRYPTION then JWK_ENC else ""
  }

  /** What a JWK says of some restrictions. */
  function Described(rs: seq<Capability>): Metadata {
    if rs == [] then Metadata("", [], "")
    else
      Metadata(if SameUse(rs) then JwkUse(rs[0].use) else "", Dedup(Operations(rs)),
               if SameAlgorithm(rs) then rs[0].algorithm else "")
  }

  /** `setJWKMetadata`, on a JWK whose metadata is still empty. */
  method SetMetadata(rs: seq<Capability>) returns (jwk: Metadata)
    ensures jwk == Described(rs)
  {
    hide Dedup, Operations;
    NoOperations();
    jwk := Metadata("", [], "");
    if |rs| == 0 {
      return;
    }
    var use, algorithm := rs[0].use, rs[0].algorithm;
    var consistentUse, consistentAlgorithm := true, true;
    for i := 0 to |rs|
      invariant consistentUse == forall j | 0 <= j < i :: rs[j].use == use
      invariant consistentAlgorithm == forall j | 0 <= j < i :: rs[j].algorithm == algorithm
      invariant jwk == Metadata("", Dedup(Operations(rs[..i])), "")
    {
      consistentUse := consistentUse && rs[i].use == use;
      consistentAlgorithm := consistentAlgorithm && rs[i].algorithm == algorithm;
      var operation := rs[i].operation;
      OperationsAppend(rs, i);
      DedupAppend(Operations(rs[..i]), operation);
      if operation != "" && operation !in jwk.operations {
        jwk := jwk.(operations := jwk.operations + [operation]);
      }
    }
    assert rs[..|rs|] == rs;
    if consistentUse {
      if use == USE_SIGNING {
        jwk := jwk.(use := JWK_SIG);
      } else if use == USE_ENCRYPTION {
        jwk := jwk.(use := JWK_ENC);
      }
    }
    if consistentAlgorithm {
      jwk := jwk.(algorithm := algorithm);
    }
  }

  lemma NoOperations()
    ensures Dedup(Operations([])) == []
  {
  }

  lemma OperationsAppend(rs: seq<Capability>, i: nat)
    requires i < |rs|
    ensures Operations(rs[..i + 1]) ==
            if rs[i].operation == "" then Operations(rs[..i]) else Operations(rs[..i]) + [rs[i].operation]
  {
    assert rs[..i + 1][..i] == rs[..i];
  }

  lemma DedupAppend<T>(s: seq<T>, x: T)
    ensures Dedup(s + [x]) == if x in Dedup(s) then Dedup(s) else Dedup(s) + [x]
  {
    assert (s + [x])[..|s|] == s;
  }

  /** The use the JWK states, or else the one of the operation. */
  function UseOf(jwk: Metadata, operation: string): string {
    if jwk.use == JWK_SIG then USE_SIGNING else if jwk.use == JWK_ENC then USE_ENCRYPTION else UseFor(operation)
  }

  function Restriction(jwk: Metadata, operation: string): Capability {
    Capability(UseOf(jwk, operation), operation, jwk.algorithm)
  }

  /** What the decoder makes of the metadata. */
  function Restrictions(jwk: Metadata): seq<Capability> {
    if jwk.algorithm == "" then []
    else seq(|jwk.operations|, i requires 0 <= i < |jwk.operations| => Restriction(jwk, jwk.operations[i]))
  }

  /** `restrictionsFromJWK` */
  method RestrictionsFromJwk(jwk: Metadata) returns (restrictions: seq<Capability>)
    ensures restrictions == Restrictions(jwk)
  {
    restrictions := [];
    if jwk.algorithm == "" || |jwk.operations| == 0 {
      return;
    }
    for i := 0 to |jwk.operations|
      invariant |restrictions| == i
      invariant forall j | 0 <= j < i :: restrictions[j] == Restriction(jwk, jwk.operations[j])
    {
      var operation := jwk.operations[i];
      var use := USE_SIGNING;
      if operation == OP_ENCRYPT || operation == OP_DECRYPT {
        use := USE_ENCRYPTION;
      }
      if jwk.use == JWK_SIG {
        use := USE_SIGNING;
      } else if jwk.use == JWK_ENC {
        use := USE_ENCRYPTION;
      }
      restrictions := restrictions + [Capability(use, operation, jwk.algorithm)];
    }
  }

  // ----- when the metadata round-trips

  /** The restrictions a JWK can express: none, or one non-empty algorithm, no empty operation, and uses
      that are all signing, all encryption, or each the decoder's default for its operation. */
  predicate Expressible(rs: seq<Capability>) {
    rs == [] || (
      && SameAlgorithm(rs) && rs[0].algorithm != ""
      && (forall i | 0 <= i < |rs| :: rs[i].operation != "")
      && (|| (forall i | 0 <= i < |rs| :: rs[i].use == USE_SIGNING)
          || (forall i | 0 <= i < |rs| :: rs[i].use == USE_ENCRYPTION)
          || (forall i | 0 <= i < |rs| :: rs[i].use == UseFor(rs[i].operation))))
  }

  lemma {:induction false} DedupElements<T>(s: seq<T>, x: T)
    ensures x in Dedup(s) <==> x in s
  {
    if s != [] {
      DedupElements(s[..|s| - 1], x);
      assert s == s[..|s| - 1] + [s[|s| - 1]];
    }
  }

  lemma {:induction false} OperationsOf(rs: seq<Capability>, operation: string)
    ensures operation in Operations(rs) <==> operation != "" && exists i | 0 <= i < |rs| :: rs[i].operation == operation
  {
    if rs != [] {
      var front := rs[..|rs| - 1];
      OperationsOf(front, operation);
      assert forall i | 0 <= i < |front| :: rs[i] == front[i];
      if i :| 0 <= i < |rs| && rs[i].operation == operation {
        assert i < |front| ==> front[i].operation == operation;
      }
    }
  }

  /** When every restriction is what the decoder makes of its operation, decoding the distinct operations
      gives the distinct restrictions. */
  lemma {:induction false} DecodedAreDistinct(jwk: Metadata, rs: seq<Capability>)
    requires forall i | 0 <= i < |rs| :: rs[i].operation != "" && rs[i] == Restriction(jwk, rs[i].operation)
    requires jwk.algorithm != "" && jwk.operations == Dedup(Operations(rs))
    ensures Restrictions(jwk) == Dedup(rs)
    decreases |rs|
  {
    if rs != [] {
      var front, last := rs[..|rs| - 1], rs[|rs| - 1];
      var jwk' := jwk.(operations := Dedup(Operations(front)));
      assert forall i | 0 <= i < |front| :: front[i] == rs[i];
      DecodedAreDistinct(jwk', front);
      DedupAppend(Operations(front), last.operation);
      DecodedContains(jwk', last);
    }
  }

  lemma DecodedContains(jwk: Metadata, c: Capability)
    requires jwk.algorithm != "" && c == Restriction(jwk, c.operation)
    ensures c.operation in jwk.operations <==> c in Restrictions(jwk)
  {
    hide UseOf;
    if j :| 0 <= j < |jwk.operations| && jwk.operations[j] == c.operation {
      assert Restrictions(jwk)[j] == c;
    }
  }

  /** Restriction metadata survives encoding and decoding, up to repeats, exactly for the expressible ones. */
  lemma MetadataRoundTripsExactly(rs: seq<Capability>)
    ensures Restrictions(Described(rs)) == Dedup(rs) <==> Expressible(rs)
  {
    if rs != [] {
      var jwk := Described(rs);
      if Expressible(rs) {
        forall i | 0 <= i < |rs| ensures rs[i] == Restriction(jwk, rs[i].operation) {
          assert rs[i].algorithm == rs[0].algorithm;
        }
        DecodedAreDistinct(jwk, rs);
      } else if Restrictions(jwk) == Dedup(rs) {
        EqualMeansExpressible(rs);
      }
    }
  }

  /** What a single restriction becomes, in the words of sections 4.2 to 4.4 of RFC 7517. */
  lemma SingleRestriction(use: string, operation: string, algorithm: string)
    ensures Described([Capability(use, operation, algorithm)]) ==
      Metadata(if use == "signing" then "sig" else if use == "encryption" then "enc" else "",
               if operation == "" then [] else [operation], algorithm)
  {
    var rs := [Capability(use, operation, algorithm)];
    assert rs[..0] == [] && [operation][..0] == [];
    assert Operations(rs) == if operation == "" then [] else [operation];
    assert SameUse(rs) && SameAlgorithm(rs);
    assert Dedup(Operations(rs)) == Operations(rs);
  }

  /** What the decoder makes of an operation: the use the JWK states, or else signing, or encryption for the two
      operations of encryption. */
  lemma DecodedUses(algorithm: string, use: string, operation: string)
    requires algorithm != ""
    ensures Restrictions(Metadata(use, [operation], algorithm)) ==
      [Capability(if use == "sig" then "signing" else if use == "enc" then "encryption"
                  else if operation == "encrypt" || operation == "decrypt" then "encryption" else "signing",
                  operation, algorithm)]
  {
  }

  /** Restrictions to two algorithms are lost altogether: the decoded key is unrestricted. */
  lemma TwoAlgorithmsAreLost(use: string, operation: string, a: string, b: string)
    requires a != b
    ensures Restrictions(Described([Capability(use, operation, a), Capability(use, operation, b)])) == []
  {
    var rs := [Capability(use, operation, a), Capability(use, operation, b)];
    assert rs[1].algorithm != rs[0].algorithm;
  }

  lemma EqualMeansExpressible(rs: seq<Capability>)
    requires rs != [] && Restrictions(Described(rs)) == Dedup(rs)
    ensures Expressible(rs)
  {
    var jwk := Described(rs);
    var decoded := Restrictions(jwk);
    forall i | 0 <= i < |rs|
      ensures rs[i] == Restriction(jwk, rs[i].operation) && rs[i].operation != "" && jwk.algorithm != ""
    {
      DedupElements(rs, rs[i]);
      assert rs[i] in decoded;
      var j :| 0 <= j < |decoded| && decoded[j] == rs[i];
      assert jwk.operations[j] in Dedup(Operations(rs));
      DedupElements(Operations(rs), jwk.operations[j]);
      OperationsOf(rs, jwk.operations[j]);
    }
  }
}
