/** The RSA private JWK (backend/rsa/encoder.jose.go, backend/rsa/decoder.jose.go). */
module RsaJose {
  import opened Wrappers
  import opened Base64
  import opened BigEndian
  import opened Division

  datatype RsaError = MissingParameter | MalformedParameter | NotPositive | InvalidExponent | InvalidKey
                    | InconsistentCrt

  datatype RsaKey = RsaKey(n: nat, e: nat, d: nat, p: nat, q: nat)

  datatype RsaJwk = RsaJwk(n: string, e: string, d: string, p: string, q: string,
                           dp: string, dq: string, qi: string)

  /** The largest exponent `crypto/rsa` accepts, and Go's largest int. */
  const MAX_EXPONENT := 0x7FFF_FFFF
  const MAX_INT := 0x7FFF_FFFF_FFFF_FFFF

  predicate Prime(p: nat) { p > 1 && forall d: nat | 1 < d < p :: p % d != 0 }

  /** The product of two exponents is one modulo `m`. */
  predicate Inverts(x: nat, m: nat)
    requires m > 0
  {
    x % m == 1 % m
  }

  /** What makes a two-prime key valid, as arithmetic: `PrivateKey.Validate`. Nothing here excludes the
      prime two, or two equal primes. */
  predicate Valid(k: RsaKey) {
    && Prime(k.p) && Prime(k.q) && k.n == k.p * k.q
    && 2 <= k.e <= MAX_EXPONENT && k.d > 0
    && Inverts(k.d * k.e, k.p - 1) && Inverts(k.d * k.e, k.q - 1)
  }

  /** `ModInverse`, which is nil when there is no inverse. */
  function ModInverse(a: nat, m: nat): Option<nat>
    requires m > 0
  {
    InverseFrom(a, m, 0)
  }

  function InverseFrom(a: nat, m: nat, x: nat): Option<nat>
    requires m > 0
    decreases if x < m then m - x else 0
  {
    if x >= m then None
    else if (x * a) % m == 1 % m then Some(x)
    else InverseFrom(a, m, x + 1)
  }

  /** The CRT values of `Precompute`. */
  datatype Crt = Crt(dp: nat, dq: nat, qi: Option<nat>)

  function Precompute(d: nat, p: nat, q: nat): Crt
    requires p > 1 && q > 1
  {
    Crt(d % (p - 1), d % (q - 1), ModInverse(q, p))
  }

  function EncodeBigInt(v: Option<nat>): string { if v.None? then "" else Encode(Bytes(v.value)) }

  function DecodeBigInt(text: string): Result<nat, RsaError> {
    match Read(text)
    case Missing => Err(MissingParameter)
    case Malformed => Err(MalformedParameter)
    case Encoded(b) => if Value(b) == 0 then Err(NotPositive) else Ok(Value(b))
  }

  /** The private branch of `Encode` under the private export policy. */
  function EncodePrivate(k: RsaKey): Result<RsaJwk, RsaError> {
    if !Valid(k) then Err(InvalidKey)
    else
      var crt := Precompute(k.d, k.p, k.q);
      Ok(RsaJwk(EncodeBigInt(Some(k.n)), EncodeBigInt(Some(k.e)), EncodeBigInt(Some(k.d)),
                EncodeBigInt(Some(k.p)), EncodeBigInt(Some(k.q)),
                EncodeBigInt(Some(crt.dp)), EncodeBigInt(Some(crt.dq)), EncodeBigInt(crt.qi)))
  }

  /** `publicKeyFromJWK` */
  function DecodePublic(j: RsaJwk): Result<(nat, nat), RsaError> {
    var n, e := DecodeBigInt(j.n), DecodeBigInt(j.e);
    if n.Err? then Err(n.error)
    else if e.Err? then Err(e.error)
    else if e.value < 2 || e.value > MAX_INT then Err(InvalidExponent)
    else Ok((n.value, e.value))
  }

  /** `privateKeyFromJWK` */
  function DecodePrivate(j: RsaJwk): Result<RsaKey, RsaError> {
    var public := DecodePublic(j);
    if public.Err? then Err(public.error)
    else if j.d == "" || j.p == "" || j.q == "" || j.dp == "" || j.dq == "" || j.qi == "" then
      Err(MissingParameter)
    else
      var d, p, q := DecodeBigInt(j.d), DecodeBigInt(j.p), DecodeBigInt(j.q);
      if d.Err? then Err(d.error)
      else if p.Err? then Err(p.error)
      else if q.Err? then Err(q.error)
      else
        var k := RsaKey(public.value.0, public.value.1, d.value, p.value, q.value);
        if !Valid(k) then Err(InvalidKey) else CheckCrt(k, j)
  }

  /** The decoder's check of the CRT parameters against the ones it computes. */
  function CheckCrt(k: RsaKey, j: RsaJwk): Result<RsaKey, RsaError>
    requires k.p > 1 && k.q > 1
  {
    var crt := Precompute(k.d, k.p, k.q);
    var dp, dq, qi := DecodeBigInt(j.dp), DecodeBigInt(j.dq), DecodeBigInt(j.qi);
    if dp.Err? then Err(dp.error)
    else if dq.Err? then Err(dq.error)
    else if qi.Err? then Err(qi.error)
    else if crt.dp != dp.value || crt.dq != dq.value || crt.qi != Some(qi.value) then Err(InconsistentCrt)
    else Ok(k)
  }

  // ----- integers

  /** A positive integer survives; zero becomes a missing parameter. */
  lemma BigIntRoundTrip(v: nat)
    ensures DecodeBigInt(EncodeBigInt(Some(v))) == if v > 0 then Ok(v) else Err(MissingParameter)
    ensures EncodeBigInt(Some(v)) == "" <==> v == 0
  {
    hide Encode, Decode;
    ValueOfBytes(v);
    ReadEncoded(Bytes(v));
  }

  /** A public key decodes exactly from a positive modulus and an exponent from two up to Go's largest int. */
  lemma RsaPublicExactly(j: RsaJwk, n: nat, e: nat)
    ensures DecodePublic(j) == Ok((n, e)) <==>
      DecodeBigInt(j.n) == Ok(n) && DecodeBigInt(j.e) == Ok(e) && 2 <= e <= 9223372036854775807
  {
    hide DecodeBigInt;
  }

  // ----- the CRT values

  /** An exponent with an inverse modulo an even number or more is not a multiple of it. */
  lemma ExponentIsPositive(d: nat, e: nat, m: nat)
    requires m >= 2 && (d * e) % m == 1 % m
    ensures d % m > 0
  {
    if d % m == 0 { MultipleOf(d, e, m); }
  }

  predicate Divides(g: nat, a: nat)
    requires g > 0
  {
    a % g == 0
  }

  /** Bezout: some combination of two integers divides both. */
  lemma {:induction false} Bezout(a: nat, b: nat) returns (g: nat, x: int, y: int)
    requires a > 0
    ensures g > 0 && g == x * a + y * b && Divides(g, a) && Divides(g, b)
    decreases b
  {
    if b == 0 {
      g, x, y := a, 1, 0;
      ModOfMultiple(1, a);
    } else {
      var r, c := a % b, a / b;
      var x', y';
      g, x', y' := Bezout(b, r);
      x, y := y', x' - c * y';
      assert a == c * b + r;
      assert y' * r == y' * a - (c * y') * b by { assert y' * (c * b + r) == (c * y') * b + y' * r; }
      MultipleOf(b, c, g);
      SumDivides(c * b, r, g);
    }
  }

  /** Two different primes have no common factor. */
  lemma PrimesAreCoprime(p: nat, q: nat, g: nat)
    requires Prime(p) && Prime(q) && p != q && g > 0 && Divides(g, p) && Divides(g, q)
    ensures g == 1
  {
    DivisorBound(g, p);
    DivisorBound(g, q);
  }

  lemma DivisorBound(g: nat, a: nat)
    requires g > 0 && a > 0 && Divides(g, a)
    ensures g <= a
  {
  }

  lemma {:induction false} InverseIsFound(a: nat, m: nat, from: nat, x: nat)
    requires m > 0 && from <= x < m && (x * a) % m == 1 % m
    ensures var r := InverseFrom(a, m, from); r.Some? && r.value < m && (r.value * a) % m == 1 % m
    decreases x - from
  {
    if (from * a) % m != 1 % m { InverseIsFound(a, m, from + 1, x); }
  }

  lemma {:induction false} InverseIsInverse(a: nat, m: nat, from: nat)
    requires m > 0
    ensures var r := InverseFrom(a, m, from); r.Some? ==> r.value < m && (r.value * a) % m == 1 % m
    decreases if from < m then m - from else 0
  {
    if from < m && (from * a) % m != 1 % m { InverseIsInverse(a, m, from + 1); }
  }

  /** Reducing a Bezout coefficient gives an inverse. */
  lemma ReducedInverse(q: int, p: int, x: int, y: int)
    requires p > 1 && x * q + y * p == 1
    ensures ((x % p) * q) % p == 1
  {
    var r, c := x % p, x / p;
    assert x == c * p + r;
    assert x * q == (c * q) * p + r * q by { assert (c * p + r) * q == (c * q) * p + r * q; }
    var k := -(c * q) - y;
    assert k * p == -((c * q) * p) - y * p;
    assert r * q == k * p + 1;
    ModOfSum(k, p, 1);
  }

  /** The CRT coefficient exists, and is positive, exactly when the primes differ. */
  lemma CoefficientExists(p: nat, q: nat)
    requires Prime(p) && Prime(q)
    ensures ModInverse(q, p).Some? <==> p != q
    ensures p != q ==> 0 < ModInverse(q, p).value < p
  {
    hide InverseFrom;
    InverseIsInverse(q, p, 0);
    if p != q {
      var x := CoprimeInverse(p, q);
      InverseIsFound(q, p, 0, x);
      ModOfMultiple(0, p);
    } else if ModInverse(q, p).Some? {
      ModOfMultiple(ModInverse(q, p).value, p);
    }
  }

  lemma CoprimeInverse(p: nat, q: nat) returns (r: nat)
    requires Prime(p) && Prime(q) && p != q
    ensures r < p && (r * q) % p == 1
  {
    var g, x, y := Bezout(q, p);
    PrimesAreCoprime(p, q, g);
    ReducedInverse(q, p, x, y);
    r := x % p;
  }

  /** The CRT exponents are positive exactly when their primes are odd. */
  lemma CrtExponents(k: RsaKey)
    requires Valid(k)
    ensures k.d % (k.p - 1) > 0 <==> k.p != 2
    ensures k.d % (k.q - 1) > 0 <==> k.q != 2
  {
    if k.p != 2 { ExponentIsPositive(k.d, k.e, k.p - 1); } else { assert k.d % 1 == 0; }
    if k.q != 2 { ExponentIsPositive(k.d, k.e, k.q - 1); } else { assert k.d % 1 == 0; }
  }

  lemma ValidBasics(k: RsaKey)
    requires Valid(k)
    ensures k.n > 0 && 2 <= k.e <= MAX_EXPONENT && k.d > 0 && k.p > 1 && k.q > 1
  {
    assert k.p * k.q > 0;
  }

  lemma CoefficientOf(k: RsaKey)
    requires Valid(k)
    ensures ModInverse(k.q, k.p).Some? <==> k.p != k.q
    ensures k.p != k.q ==> ModInverse(k.q, k.p).value > 0
  {
    CoefficientExists(k.p, k.q);
  }

  // ----- the private JWK

  /** A valid key comes back from its own JWK exactly when its primes are odd and different. With the prime
      two, dp or dq is zero, and with equal primes there is no coefficient: each is then written as an
      empty parameter, which the decoder reports missing. */
  lemma RsaPrivateExactly(k: RsaKey)
    requires Valid(k)
    ensures EncodePrivate(k).Ok?
    ensures DecodePrivate(EncodePrivate(k).value)
         == if k.p != 2 && k.q != 2 && k.p != k.q then Ok(k) else Err(MissingParameter)
  {
    hide Valid, ModInverse, Bytes, Value, Encode, Read;
    ValidBasics(k);
    var crt := Precompute(k.d, k.p, k.q);
    CrtExponents(k);
    CoefficientOf(k);
    BigIntRoundTrip(k.n);
    BigIntRoundTrip(k.e);
    BigIntRoundTrip(k.d);
    BigIntRoundTrip(k.p);
    BigIntRoundTrip(k.q);
    BigIntRoundTrip(crt.dp);
    BigIntRoundTrip(crt.dq);
    if crt.qi.Some? { BigIntRoundTrip(crt.qi.value); }
  }

  /** Which error an integer gives. */
  lemma IntegerErrors(text: string)
    ensures DecodeBigInt(text) == Err(MissingParameter) <==> text == ""
    ensures DecodeBigInt(text) == Err(MalformedParameter) <==> text != "" && Decode(text).None?
    ensures DecodeBigInt(text) == Err(NotPositive) <==>
      text != "" && Decode(text).Some? && Value(Decode(text).value) == 0
  {
    hide Decode;
  }

  /** Which error a public key gives: the modulus, the exponent, then the exponent's range. */
  lemma PublicErrors(j: RsaJwk)
    ensures var n, e, r := DecodeBigInt(j.n), DecodeBigInt(j.e), DecodePublic(j);
      && (n.Err? ==> r == Err(n.error))
      && (n.Ok? && e.Err? ==> r == Err(e.error))
      && (r == Err(InvalidExponent) <==> n.Ok? && e.Ok? && !(2 <= e.value <= 9223372036854775807))
  {
    hide Decode;
  }

  /** Which error a private key gives: the public part, a missing parameter, the exponent and the primes, whether
      they make a valid key, and then the CRT values. Invalid keys, and only they, do not encode. */
  lemma PrivateErrors(j: RsaJwk)
    ensures DecodePublic(j).Err? ==> DecodePrivate(j) == Err(DecodePublic(j).error)
    ensures DecodePublic(j).Ok? && "" in {j.d, j.p, j.q, j.dp, j.dq, j.qi} ==>
      DecodePrivate(j) == Err(MissingParameter)
    ensures var d, p, q, dp, dq, qi := DecodeBigInt(j.d), DecodeBigInt(j.p), DecodeBigInt(j.q),
                                       DecodeBigInt(j.dp), DecodeBigInt(j.dq), DecodeBigInt(j.qi);
      DecodePublic(j).Ok? && "" !in {j.d, j.p, j.q, j.dp, j.dq, j.qi} ==>
        && (d.Err? ==> DecodePrivate(j) == Err(d.error))
        && (d.Ok? && p.Err? ==> DecodePrivate(j) == Err(p.error))
        && (d.Ok? && p.Ok? && q.Err? ==> DecodePrivate(j) == Err(q.error))
        && (d.Ok? && p.Ok? && q.Ok? ==>
              var valid := Valid(RsaKey(DecodePublic(j).value.0, DecodePublic(j).value.1, d.value, p.value, q.value));
              && (DecodePrivate(j) == Err(InvalidKey) <==> !valid)
              && (valid && dp.Err? ==> DecodePrivate(j) == Err(dp.error))
              && (valid && dp.Ok? && dq.Err? ==> DecodePrivate(j) == Err(dq.error))
              && (valid && dp.Ok? && dq.Ok? && qi.Err? ==> DecodePrivate(j) == Err(qi.error))
              && (valid && dp.Ok? && dq.Ok? && qi.Ok? ==>
                    DecodePrivate(j).Ok? || DecodePrivate(j) == Err(InconsistentCrt)))
  {
    hide Value, Decode, DecodePublic, Prime, Inverts, ModInverse;
  }

  lemma EncodeErrors(k: RsaKey)
    ensures EncodePrivate(k) == Err(InvalidKey) <==> !Valid(k)
    ensures EncodePrivate(k).Ok? <==> Valid(k)
  {
    hide Prime, Inverts, ModInverse, Encode, Bytes;
  }

  /** Boundary cases of `Valid` that are lost: a key with the prime two and one with equal primes. */
  lemma LostKeys()
    ensures var two, equal := RsaKey(6, 3, 1, 2, 3), RsaKey(9, 3, 1, 3, 3);
      && Valid(two) && DecodePrivate(EncodePrivate(two).value) == Err(MissingParameter)
      && Valid(equal) && DecodePrivate(EncodePrivate(equal).value) == Err(MissingParameter)
  {
    var two, equal := RsaKey(6, 3, 1, 2, 3), RsaKey(9, 3, 1, 3, 3);
    assert Valid(two) && Valid(equal);
    hide DecodePrivate, EncodePrivate, Valid;
    RsaPrivateExactly(two);
    RsaPrivateExactly(equal);
  }

  /** Whatever JWK decodes to a private key carries the key's own CRT values. */
  lemma DecodedIsConsistent(j: RsaJwk)
    requires DecodePrivate(j).Ok?
    ensures var k := DecodePrivate(j).value;
      && Valid(k) && k.p != 2 && k.q != 2 && k.p != k.q
      && DecodeBigInt(j.dp) == Ok(k.d % (k.p - 1)) && DecodeBigInt(j.dq) == Ok(k.d % (k.q - 1))
      && DecodeBigInt(j.qi).Ok? && ModInverse(k.q, k.p) == Some(DecodeBigInt(j.qi).value)
      && DecodePrivate(EncodePrivate(k).value) == Ok(k)
  {
    hide Prime, ModInverse, Encode, Read;
    var k := DecodePrivate(j).value;
    CrtExponents(k);
    CoefficientOf(k);
    RsaPrivateExactly(k);
  }

  /** The parameters of a JWK decode to these values. */
  predicate Carries(j: RsaJwk, k: RsaKey) {
    && DecodeBigInt(j.n) == Ok(k.n) && DecodeBigInt(j.e) == Ok(k.e) && DecodeBigInt(j.d) == Ok(k.d)
    && DecodeBigInt(j.p) == Ok(k.p) && DecodeBigInt(j.q) == Ok(k.q)
  }

  predicate CarriesCrt(j: RsaJwk, k: RsaKey) {
    && k.p > 1 && k.q > 1
    && DecodeBigInt(j.dp) == Ok(k.d % (k.p - 1)) && DecodeBigInt(j.dq) == Ok(k.d % (k.q - 1))
    && DecodeBigInt(j.qi).Ok? && ModInverse(k.q, k.p) == Some(DecodeBigInt(j.qi).value)
  }

  lemma DecodedIsCarried(j: RsaJwk)
    requires DecodePrivate(j).Ok?
    ensures Carries(j, DecodePrivate(j).value)
  {
    hide Valid, ModInverse, DecodeBigInt, Precompute;
  }

  lemma DecodedCarriesCrt(j: RsaJwk)
    requires DecodePrivate(j).Ok?
    ensures var k := DecodePrivate(j).value;
      CarriesCrt(j, k) && Valid(k) && k.p != 2 && k.q != 2 && k.p != k.q
  {
    hide Valid, ModInverse, DecodeBigInt, DecodePrivate;
    DecodedIsConsistent(j);
    ValidBasics(DecodePrivate(j).value);
  }

  lemma CarriedDecodes(j: RsaJwk, k: RsaKey)
    requires Valid(k) && Carries(j, k) && CarriesCrt(j, k)
    ensures DecodePrivate(j) == Ok(k)
  {
    hide Valid, ModInverse, DecodeBigInt, Precompute, CheckCrt;
    ValidBasics(k);
    EmptyIsMissing();
    CarriedCrtIsConsistent(j, k);
  }

  lemma CarriedCrtIsConsistent(j: RsaJwk, k: RsaKey)
    requires CarriesCrt(j, k)
    ensures CheckCrt(k, j) == Ok(k) && DecodeBigInt(j.dp).Ok? && DecodeBigInt(j.dq).Ok? && DecodeBigInt(j.qi).Ok?
  {
    hide ModInverse, DecodeBigInt;
  }

  lemma DecodesWithCrt(j: RsaJwk, k: RsaKey)
    ensures DecodePrivate(j) == Ok(k) <==>
      && Valid(k) && k.p != 2 && k.q != 2 && k.p != k.q
      && Carries(j, k) && CarriesCrt(j, k)
  {
    hide Valid, DecodePrivate, Carries, CarriesCrt;
    if DecodePrivate(j) == Ok(k) {
      DecodedCarriesCrt(j);
      DecodedIsCarried(j);
    } else if Valid(k) && Carries(j, k) && CarriesCrt(j, k) {
      CarriedDecodes(j, k);
    }
  }

  predicate OddPrime(p: nat) { p > 2 && forall d: nat | 1 < d < p :: p % d != 0 }

  /** Two different odd primes whose product is the modulus, an exponent between 2 and 2^31 - 1, and a private
      exponent that inverts it modulo both primes less one. */
  predicate IsOddKey(k: RsaKey) {
    && OddPrime(k.p) && OddPrime(k.q) && k.p != k.q && k.n == k.p * k.q
    && 2 <= k.e <= 2147483647 && k.d > 0
    && (k.d * k.e) % (k.p - 1) == 1 && (k.d * k.e) % (k.q - 1) == 1
  }

  lemma OddPrimeExactly(p: nat)
    ensures OddPrime(p) <==> Prime(p) && p != 2
  {
  }

  lemma InvertsExactly(x: nat, m: nat)
    requires m >= 2
    ensures Inverts(x, m) <==> x % m == 1
  {
    ModOfSum(0, m, 1);
  }

  lemma OddKeyExactly(k: RsaKey)
    ensures IsOddKey(k) <==> Valid(k) && k.p != 2 && k.q != 2 && k.p != k.q
  {
    hide OddPrime, Prime, Inverts;
    OddPrimeExactly(k.p);
    OddPrimeExactly(k.q);
    if OddPrime(k.p) && OddPrime(k.q) {
      OddPrimeIsBig(k.p);
      OddPrimeIsBig(k.q);
      InvertsExactly(k.d * k.e, k.p - 1);
      InvertsExactly(k.d * k.e, k.q - 1);
    }
  }

  lemma OddPrimeIsBig(p: nat)
    requires OddPrime(p)
    ensures p > 2
  {
  }

  /** An inverse modulo p below p is the one that `ModInverse` finds. */
  lemma InverseIsUnique(q: nat, p: nat, v: nat)
    requires p > 1
    ensures ModInverse(q, p) == Some(v) <==> v < p && (v * q) % p == 1 && ModInverse(q, p).Some?
  {
    hide InverseFrom;
    InverseIsInverse(q, p, 0);
    if v < p && (v * q) % p == 1 && ModInverse(q, p).Some? {
      SameInverse(q, p, v, ModInverse(q, p).value);
    }
  }

  lemma SameInverse(q: nat, p: nat, v: nat, w: nat)
    requires p > 1 && v < p && w < p && (v * q) % p == 1 && (w * q) % p == 1
    ensures v == w
  {
    var a, b := (v * q) / p, (w * q) / p;
    assert v * q == a * p + 1 && w * q == b * p + 1;
    assert v * (w * q) == (v * b) * p + v by { assert v * (b * p + 1) == (v * b) * p + v; }
    assert w * (v * q) == (w * a) * p + w by { assert w * (a * p + 1) == (w * a) * p + w; }
    assert v * (w * q) == w * (v * q);
    DivisionIsUnique(v * b, v, w * a, w, p);
  }

  /** A JWK decodes to a private key if and only if the key is one with odd, different primes, and each of the
      eight parameters decodes to its value: n, e, d, p and q to the key's own, dp and dq to the remainders of
      d, and qi to the inverse of q modulo p. */
  lemma RsaDecodesExactly(j: RsaJwk, k: RsaKey)
    ensures DecodePrivate(j) == Ok(k) <==>
      && IsOddKey(k)
      && DecodeBigInt(j.n) == Ok(k.n) && DecodeBigInt(j.e) == Ok(k.e) && DecodeBigInt(j.d) == Ok(k.d)
      && DecodeBigInt(j.p) == Ok(k.p) && DecodeBigInt(j.q) == Ok(k.q)
      && DecodeBigInt(j.dp) == Ok(k.d % (k.p - 1)) && DecodeBigInt(j.dq) == Ok(k.d % (k.q - 1))
      && DecodeBigInt(j.qi).Ok? && DecodeBigInt(j.qi).value < k.p
      && (DecodeBigInt(j.qi).value * k.q) % k.p == 1
  {
    hide Valid, IsOddKey, ModInverse, DecodeBigInt, DecodePrivate;
    DecodesWithCrt(j, k);
    OddKeyExactly(k);
    if Valid(k) {
      ValidBasics(k);
      CoefficientOf(k);
      if DecodeBigInt(j.qi).Ok? { InverseIsUnique(k.q, k.p, DecodeBigInt(j.qi).value); }
    }
  }

  /** A small key with the usual exponent, which round-trips. */
  lemma UsualExponent()
    ensures var k := RsaKey(15, 65537, 1, 3, 5);
      EncodePrivate(k).Ok? && DecodePrivate(EncodePrivate(k).value) == Ok(k)
  {
    var k := RsaKey(15, 65537, 1, 3, 5);
    assert Valid(k);
    hide EncodePrivate, DecodePrivate, Valid;
    RsaPrivateExactly(k);
  }

  lemma EmptyIsMissing()
    ensures DecodeBigInt("").Err?
  {
  }

  /** The text the encoder writes: canonical, and without a leading zero byte. */
  predicate Minimal(text: string) {
    Canonical(text) && Read(text).Encoded? && Read(text).bytes != [] && Read(text).bytes[0] != 0
  }

  lemma BigIntExactly(v: nat, text: string)
    requires v > 0
    ensures text == EncodeBigInt(Some(v)) <==> DecodeBigInt(text) == Ok(v) && Minimal(text)
  {
    hide Encode, Decode, Canonical, Bytes;
    ValueOfBytes(v);
    ReadExactly(text, Bytes(v));
    if Read(text).Encoded? { BytesOfValue(Read(text).bytes); }
  }

  predicate MinimalJwk(j: RsaJwk) {
    && Minimal(j.n) && Minimal(j.e) && Minimal(j.d) && Minimal(j.p) && Minimal(j.q)
    && Minimal(j.dp) && Minimal(j.dq) && Minimal(j.qi)
  }

  /** Of the JWKs that decode to a key, the encoder writes the one whose texts are all minimal. */
  lemma RsaEncodesExactly(j: RsaJwk, k: RsaKey)
    requires Valid(k) && k.p != 2 && k.q != 2 && k.p != k.q
    ensures EncodePrivate(k) == Ok(j) <==> DecodePrivate(j) == Ok(k) && MinimalJwk(j)
  {
    hide Valid, ModInverse, EncodeBigInt, DecodeBigInt, Minimal, DecodePrivate;
    ValidBasics(k);
    CrtExponents(k);
    CoefficientOf(k);
    DecodesWithCrt(j, k);
    BigIntExactly(k.n, j.n);
    BigIntExactly(k.e, j.e);
    BigIntExactly(k.d, j.d);
    BigIntExactly(k.p, j.p);
    BigIntExactly(k.q, j.q);
    BigIntExactly(k.d % (k.p - 1), j.dp);
    BigIntExactly(k.d % (k.q - 1), j.dq);
    BigIntExactly(ModInverse(k.q, k.p).value, j.qi);
  }
}
