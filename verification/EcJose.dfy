/** Fixed-width EC integers: JOSE signatures and EC JWK parameters (backend/ec). */
module EcJose {
  import opened Wrappers
  import opened Base64
  import opened BigEndian

  // ----- signatures

  /** What `ecdsa.Verify` says of a pair, for some public key and digest. */
  type PairCheck = (nat, nat) -> bool

  /** The size of the group order in bytes; `None` for a missing key, curve or curve parameters. */
  type OrderSize = Option<nat>

  /** `encodeSignature`: R || S in a fresh buffer of twice the size of the group order. */
  method EncodeSignature(order: OrderSize, r: Option<nat>, s: Option<nat>) returns (signature: Option<array<Byte>>)
    requires order.Some? && r.Some? && s.Some? ==> r.value < Power256(order.value) && s.value < Power256(order.value)
    ensures signature.None? <==> order.None? || r.None? || s.None?
    ensures signature.Some? ==>
      fresh(signature.value) && signature.value[..] == Joined(order.value, r.value, s.value)
  {
    if order.None? || r.None? || s.None? {
      return None;
    }
    var size := order.value;
    var buffer := new Byte[2 * size];
    FillInto(buffer, 0, size, r.value);
    FillInto(buffer, size, 2 * size, s.value);
    assert buffer[..] == buffer[0..size] + buffer[size..2 * size];
    return Some(buffer);
  }

  function Joined(size: nat, r: nat, s: nat): seq<Byte> { Fixed(r, size) + Fixed(s, size) }

  /** `verifySignature` */
  predicate VerifySignature(order: OrderSize, check: PairCheck, signature: seq<Byte>) {
    && order.Some? && |signature| == 2 * order.value
    && check(Value(signature[..order.value]), Value(signature[order.value..]))
  }

  /** The signature splits back to the pair, so the verifier checks exactly the signer's pair. */
  lemma SignatureRoundTrip(size: nat, r: nat, s: nat, check: PairCheck)
    requires r < Power256(size) && s < Power256(size)
    ensures |Joined(size, r, s)| == 2 * size
    ensures Value(Joined(size, r, s)[..size]) == r && Value(Joined(size, r, s)[size..]) == s
    ensures VerifySignature(Some(size), check, Joined(size, r, s)) <==> check(r, s)
  {
    ValueOfFixed(r, size);
    ValueOfFixed(s, size);
    assert Joined(size, r, s)[..size] == Fixed(r, size);
    assert Joined(size, r, s)[size..] == Fixed(s, size);
  }

  /** Every accepted signature is the encoding of one accepted pair: no other width, and no second encoding. */
  lemma AcceptedIsCanonical(order: OrderSize, check: PairCheck, signature: seq<Byte>)
    ensures VerifySignature(order, check, signature) <==>
      order.Some? && exists r, s | 0 <= r < Power256(order.value) && 0 <= s < Power256(order.value) ::
        check(r, s) && signature == Joined(order.value, r, s)
  {
    hide Fixed, Value, Power256, Joined;
    if order.Some? {
      var size := order.value;
      if VerifySignature(order, check, signature) {
        SplitsInTwo(size, signature);
      }
      forall r, s | 0 <= r < Power256(size) && 0 <= s < Power256(size) && check(r, s) && signature == Joined(size, r, s)
        ensures VerifySignature(order, check, signature)
      {
        SignatureRoundTrip(size, r, s, check);
      }
    }
  }

  lemma SplitsInTwo(size: nat, signature: seq<Byte>)
    requires |signature| == 2 * size
    ensures var r, s := Value(signature[..size]), Value(signature[size..]);
      r < Power256(size) && s < Power256(size) && signature == Joined(size, r, s)
  {
    FixedOfValue(signature[..size]);
    FixedOfValue(signature[size..]);
  }

  // ----- coordinates and scalars

  datatype EcError = MissingParameter | MalformedParameter | WrongLength | UnsupportedCurve | NotOnCurve
                   | ScalarOutOfRange | InvalidPoint | ScalarMismatch

  /** A curve as the code sees it: field size in bytes, group order, membership and base-point multiples. */
  datatype Curve = Curve(name: string, size: nat, order: nat, contains: (nat, nat) -> bool, multiple: nat -> (nat, nat))

  /** Points have coordinates of the field, and the order fits the field's width, as on the NIST curves. */
  ghost predicate Sized(c: Curve) {
    && c.size > 0 && c.order <= Power256(c.size)
    && forall x: nat, y: nat | c.contains(x, y) :: x < Power256(c.size) && y < Power256(c.size)
  }

  function EncodeCoordinate(v: nat, c: Curve): string { Encode(Fixed(v, c.size)) }

  function DecodeCoordinate(text: string, c: Curve): Result<nat, EcError> {
    match Read(text)
    case Missing => Err(MissingParameter)
    case Malformed => Err(MalformedParameter)
    case Encoded(b) => if |b| != c.size then Err(WrongLength) else Ok(Value(b))
  }

  /** A parameter decodes to a coordinate if and only if its bytes are the fixed-width form of it. Of these
      texts the one that encoding writes is the canonical one. */
  lemma CoordinateExactly(v: nat, text: string, c: Curve)
    requires Sized(c) && v < Power256(c.size)
    ensures DecodeCoordinate(text, c) == Ok(v) <==> Read(text) == Encoded(Fixed(v, c.size))
    ensures text == EncodeCoordinate(v, c) <==> DecodeCoordinate(text, c) == Ok(v) && Canonical(text)
  {
    hide Encode, Decode, Canonical;
    ValueOfFixed(v, c.size);
    ReadExactly(text, Fixed(v, c.size));
    if Read(text).Encoded? { FixedOfValue(Read(text).bytes); }
  }

  // ----- the private JWK

  datatype EcKey = EcKey(curve: Curve, x: nat, y: nat, d: nat)

  datatype EcJwk = EcJwk(curve: string, x: string, y: string, d: string)

  /** `validatePrivateKey` */
  function ValidatePrivateKey(k: EcKey): Result<(), EcError> {
    if k.d == 0 || k.d >= k.curve.order then Err(ScalarOutOfRange)
    else if !k.curve.contains(k.x, k.y) then Err(InvalidPoint)
    else if k.curve.multiple(k.d) != (k.x, k.y) then Err(ScalarMismatch)
    else Ok(())
  }

  /** `Encode` of a private key under the private export policy. */
  function EncodePrivate(k: EcKey): Result<EcJwk, EcError> {
    var valid := ValidatePrivateKey(k);
    if valid.Err? then Err(valid.error)
    else if !k.curve.contains(k.x, k.y) then Err(InvalidPoint)
    else
      Ok(EcJwk(k.curve.name, EncodeCoordinate(k.x, k.curve), EncodeCoordinate(k.y, k.curve),
               EncodeCoordinate(k.d, k.curve)))
  }

  /** `publicKeyFromJWK` and then `privateKeyFromJWK`; `curves` is the table of `curveFromJOSEName`. */
  function DecodePrivate(j: EcJwk, curves: string -> Option<Curve>): Result<EcKey, EcError> {
    var curve := curves(j.curve);
    if curve.None? then Err(UnsupportedCurve)
    else
      var x, y := DecodeCoordinate(j.x, curve.value), DecodeCoordinate(j.y, curve.value);
      if x.Err? then Err(x.error)
      else if y.Err? then Err(y.error)
      else if !curve.value.contains(x.value, y.value) then Err(NotOnCurve)
      else
        var d := DecodeCoordinate(j.d, curve.value);
        if d.Err? then Err(d.error)
        else
          var k := EcKey(curve.value, x.value, y.value, d.value);
          var valid := ValidatePrivateKey(k);
          if valid.Err? then Err(valid.error) else Ok(k)
  }

  /** The two tables agree: a curve's name leads back to the curve. */
  ghost predicate Known(c: Curve, curves: string -> Option<Curve>) { curves(c.name) == Some(c) }

  /** The scalar is in range, the point on the curve, and the point the scalar's multiple of the base point. */
  predicate IsKey(k: EcKey) {
    && 0 < k.d < k.curve.order
    && k.curve.contains(k.x, k.y)
    && k.curve.multiple(k.d) == (k.x, k.y)
  }

  predicate CanonicalJwk(j: EcJwk) { Canonical(j.x) && Canonical(j.y) && Canonical(j.d) }

  /** A JWK decodes to a private key if and only if the scalar is in range and belongs to the point, the point
      is on the curve, and the JWK has the curve's name and, in bytes, the coordinates and the scalar: every
      other length, curve and scalar is rejected. Exactly such keys encode, to the canonical one of these
      JWKs. */
  lemma EcPrivateExactly(k: EcKey, j: EcJwk, curves: string -> Option<Curve>)
    requires Sized(k.curve) && Known(k.curve, curves)
    requires forall name :: curves(name).Some? ==> curves(name).value.name == name
    ensures DecodePrivate(j, curves) == Ok(k) <==>
      && IsKey(k) && j.curve == k.curve.name
      && Read(j.x) == Encoded(Fixed(k.x, k.curve.size)) && Read(j.y) == Encoded(Fixed(k.y, k.curve.size))
      && Read(j.d) == Encoded(Fixed(k.d, k.curve.size))
    ensures EncodePrivate(k) == Ok(j) <==> DecodePrivate(j, curves) == Ok(k) && CanonicalJwk(j)
    ensures EncodePrivate(k).Ok? <==> IsKey(k)
  {
    hide Read, Encode, Canonical, Fixed, Power256;
    if ValidatePrivateKey(k).Ok? {
      CoordinateExactly(k.x, j.x, k.curve);
      CoordinateExactly(k.y, j.y, k.curve);
      CoordinateExactly(k.d, j.d, k.curve);
    }
  }

  /** Which error a coordinate gives: missing exactly for no text, malformed exactly for text that is not
      base64url, and wrong length for any other length than the field's. */
  lemma CoordinateErrors(text: string, c: Curve)
    ensures DecodeCoordinate(text, c) == Err(MissingParameter) <==> text == ""
    ensures DecodeCoordinate(text, c) == Err(MalformedParameter) <==> text != "" && Decode(text).None?
    ensures DecodeCoordinate(text, c) == Err(WrongLength) <==>
      text != "" && Decode(text).Some? && |Decode(text).value| != c.size
  {
    hide Decode;
  }

  /** Which error a key gives: the scalar's range first, then the point, then whether they belong together. */
  lemma KeyErrors(k: EcKey)
    ensures ValidatePrivateKey(k).Ok? <==> IsKey(k)
    ensures ValidatePrivateKey(k) == Err(ScalarOutOfRange) <==> !(0 < k.d < k.curve.order)
    ensures ValidatePrivateKey(k) == Err(InvalidPoint) <==>
      0 < k.d < k.curve.order && !k.curve.contains(k.x, k.y)
    ensures ValidatePrivateKey(k) == Err(ScalarMismatch) <==>
      0 < k.d < k.curve.order && k.curve.contains(k.x, k.y) && k.curve.multiple(k.d) != (k.x, k.y)
  {
  }

  /** Which error a JWK gives: its curve first, then the coordinates, the point, and the scalar. */
  lemma PrivateErrors(j: EcJwk, curves: string -> Option<Curve>)
    ensures var r := DecodePrivate(j, curves);
      && (r == Err(UnsupportedCurve) <==> curves(j.curve).None?)
      && (curves(j.curve).Some? ==>
            var c := curves(j.curve).value;
            var x, y, d := DecodeCoordinate(j.x, c), DecodeCoordinate(j.y, c), DecodeCoordinate(j.d, c);
            && (x.Err? ==> r == Err(x.error))
            && (x.Ok? && y.Err? ==> r == Err(y.error))
            && (x.Ok? && y.Ok? ==>
                  && (r == Err(NotOnCurve) <==> !c.contains(x.value, y.value))
                  && (c.contains(x.value, y.value) && d.Err? ==> r == Err(d.error))
                  && (c.contains(x.value, y.value) && d.Ok? ==>
                        && (r == Err(ScalarOutOfRange) <==> !(0 < d.value < c.order))
                        && (r == Err(ScalarMismatch) <==>
                              0 < d.value < c.order && c.multiple(d.value) != (x.value, y.value)))))
  {
    hide Decode;
  }

  /** The decoder is not strict, so every encoded key has a second JWK: the text of x with a line break. */
  lemma SecondJwk(k: EcKey, j: EcJwk, curves: string -> Option<Curve>)
    requires Sized(k.curve) && Known(k.curve, curves)
    requires forall name :: curves(name).Some? ==> curves(name).value.name == name
    requires EncodePrivate(k) == Ok(j)
    ensures var j' := j.(x := j.x + "\n"); j' != j && DecodePrivate(j', curves) == Ok(k)
  {
    hide Encode, Canonical, Fixed, Power256, Decode;
    var j' := j.(x := j.x + "\n");
    BreakIsIgnored(j.x, "", '\n');
    assert j.x + "" == j.x && j.x + ['\n'] + "" == j.x + "\n";
    EcPrivateExactly(k, j, curves);
    EcPrivateExactly(k, j', curves);
    assert |j'.x| == |j.x| + 1;
  }
}
