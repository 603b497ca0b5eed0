/** The legacy block modes ECB and CBC (backend/symetric/unsafe_crypto_enabled.go; sections 6.1 and 6.2 of
    NIST SP 800-38A). */
module BlockModes {
  import opened Wrappers
  import opened BigEndian
  import opened Division
  import opened Padding

  type Block = seq<Byte>

  /** A block cipher under one key: two functions on blocks that undo each other. */
  datatype Cipher = Cipher(size: nat, encrypt: Block -> Block, decrypt: Block -> Block)

  ghost predicate IsCipher(c: Cipher) {
    && 0 < c.size < 256
    && Undoes(c.decrypt, c.encrypt, c.size)
    && Undoes(c.encrypt, c.decrypt, c.size)
  }

  /** On blocks, `f` gives blocks, and `g` undoes it. */
  ghost predicate Undoes(g: Block -> Block, f: Block -> Block, size: nat) {
    forall b: Block | |b| == size :: |f(b)| == size && g(f(b)) == b
  }

  // ----- ECB

  /** Each block on its own. */
  function Ecb(crypt: Block -> Block, size: nat, s: seq<Byte>): seq<Byte>
    requires size > 0
  {
    if |s| < size then [] else crypt(s[..size]) + Ecb(crypt, size, s[size..])
  }

  lemma EcbStep(crypt: Block -> Block, size: nat, first: Block, rest: seq<Byte>)
    requires |first| == size > 0
    ensures Ecb(crypt, size, first + rest) == crypt(first) + Ecb(crypt, size, rest)
  {
    assert (first + rest)[..size] == first && (first + rest)[size..] == rest;
  }

  /** Two functions that undo each other on blocks undo each other in ECB, which keeps the length. */
  lemma {:induction false} EcbUndoes(f: Block -> Block, g: Block -> Block, size: nat, s: seq<Byte>)
    requires size > 0 && Undoes(g, f, size) && Whole(|s|, size)
    ensures |Ecb(f, size, s)| == |s|
    ensures Ecb(g, size, Ecb(f, size, s)) == s
  {
    if |s| >= size {
      hide Ecb;
      var first, rest := s[..size], s[size..];
      assert s == first + rest;
      EcbUndoes(f, g, size, rest);
      EcbStep(f, size, first, rest);
      EcbStep(g, size, f(first), Ecb(f, size, rest));
    }
  }

  lemma EcbAdvances(crypt: Block -> Block, size: nat, src: seq<Byte>, from: nat)
    requires size > 0 && from + size <= |src|
    ensures Ecb(crypt, size, src[from..]) == crypt(src[from..from + size]) + Ecb(crypt, size, src[from + size..])
  {
    EcbStep(crypt, size, src[from..from + size], src[from + size..]);
    assert src[from..] == src[from..from + size] + src[from + size..];
  }

  /** `ecbCrypt`: fills the destination block by block. */
  method EcbCrypt(crypt: Block -> Block, size: nat, dst: array<Byte>, src: array<Byte>)
    requires size > 0 && dst != src && dst.Length == src.Length && Whole(src.Length, size)
    requires forall b: Block | |b| == size :: |crypt(b)| == size
    modifies dst
    ensures dst[..] == Ecb(crypt, size, src[..])
  {
    hide Ecb;
    var from := 0;
    assert src[0..] == src[..];
    while from < src.Length
      invariant 0 <= from <= src.Length && Whole(src.Length - from, size)
      invariant dst[..from] + Ecb(crypt, size, src[from..]) == Ecb(crypt, size, src[..])
    {
      var block := crypt(src[from..from + size]);
      CopyBlock(dst, from, block);
      EcbAdvances(crypt, size, src[..], from);
      assert src[from..] == src[..][from..] && src[from + size..] == src[..][from + size..];
      assert src[from..from + size] == src[..][from..from + size];
      from := from + size;
    }
    EcbOfNothing(crypt, size);
    assert src[from..] == [] && dst[..] == dst[..from];
  }

  lemma EcbOfNothing(crypt: Block -> Block, size: nat)
    requires size > 0
    ensures Ecb(crypt, size, []) == []
  {
  }

  /** `ecbCrypt` on a fresh destination. */
  method EcbBytes(crypt: Block -> Block, size: nat, s: seq<Byte>) returns (r: seq<Byte>)
    requires size > 0 && Whole(|s|, size) && forall b: Block | |b| == size :: |crypt(b)| == size
    ensures r == Ecb(crypt, size, s)
  {
    var src, dst := new Byte[|s|](i requires 0 <= i < |s| => s[i]), new Byte[|s|];
    assert src[..] == s;
    EcbCrypt(crypt, size, dst, src);
    r := dst[..];
  }

  method CopyBlock(dst: array<Byte>, from: nat, block: Block)
    requires from + |block| <= dst.Length
    modifies dst
    ensures dst[..from + |block|] == old(dst[..from]) + block
  {
    for i := 0 to |block|
      invariant dst[..from + i] == old(dst[..from]) + block[..i]
    {
      dst[from + i] := block[i];
    }
  }

  // ----- CBC

  function Power2(bits: nat): nat { if bits == 0 then 1 else 2 * Power2(bits - 1) }

  /** Exclusive or of the low bits, bit by bit. */
  function XorBits(a: nat, b: nat, bits: nat): (r: nat)
    ensures r < Power2(bits)
  {
    if bits == 0 then 0
    else (if a % 2 == b % 2 then 0 else 1) + 2 * XorBits(a / 2, b / 2, bits - 1)
  }

  lemma {:induction false} XorBitsTwice(a: nat, b: nat, bits: nat)
    requires a < Power2(bits)
    ensures XorBits(XorBits(a, b, bits), b, bits) == a
  {
    if bits > 0 {
      var x, rest := XorBits(a, b, bits), XorBits(a / 2, b / 2, bits - 1);
      assert x / 2 == rest && (x % 2 == b % 2 <==> a % 2 == 0);
      XorBitsTwice(a / 2, b / 2, bits - 1);
    }
  }

  /** The bit of a number at a position. */
  function Bit(a: nat, i: nat): nat { if i == 0 then a % 2 else Bit(a / 2, i - 1) }

  /** Each bit of the result is set exactly when the two bits differ. */
  lemma {:induction false} XorBitsAt(a: nat, b: nat, bits: nat, i: nat)
    requires i < bits
    ensures Bit(XorBits(a, b, bits), i) == if Bit(a, i) == Bit(b, i) then 0 else 1
  {
    var x, rest := XorBits(a, b, bits), XorBits(a / 2, b / 2, bits - 1);
    assert x / 2 == rest && (x % 2 == 0 <==> a % 2 == b % 2);
    if i > 0 { XorBitsAt(a / 2, b / 2, bits - 1, i - 1); }
  }

  lemma XorByteAt(a: Byte, b: Byte, i: nat)
    requires i < 8
    ensures Bit(XorByte(a, b), i) == if Bit(a, i) == Bit(b, i) then 0 else 1
  {
    hide XorBits;
    XorBitsAt(a, b, 8, i);
  }

  function XorByte(a: Byte, b: Byte): Byte {
    assert Power2(8) == 256;
    XorBits(a, b, 8)
  }

  function Xor(a: Block, b: Block): Block
    requires |a| == |b|
  {
    seq(|a|, i requires 0 <= i < |a| => XorByte(a[i], b[i]))
  }

  lemma XorTwice(a: Block, b: Block)
    requires |a| == |b|
    ensures Xor(Xor(a, b), b) == a
  {
    hide XorBits;
    var x := Xor(Xor(a, b), b);
    forall i | 0 <= i < |a| ensures x[i] == a[i] {
      assert Power2(8) == 256;
      XorBitsTwice(a[i], b[i], 8);
    }
  }

  /** `cipher.NewCBCEncrypter(...).CryptBlocks` */
  function CbcEncrypt(c: Cipher, iv: Block, s: seq<Byte>): seq<Byte>
    requires IsCipher(c) && |iv| == c.size
    decreases |s|
  {
    if |s| < c.size then []
    else
      var first := c.encrypt(Xor(s[..c.size], iv));
      first + CbcEncrypt(c, first, s[c.size..])
  }

  /** `cipher.NewCBCDecrypter(...).CryptBlocks` */
  function CbcDecrypt(c: Cipher, iv: Block, s: seq<Byte>): seq<Byte>
    requires IsCipher(c) && |iv| == c.size
    decreases |s|
  {
    if |s| < c.size then []
    else Xor(c.decrypt(s[..c.size]), iv) + CbcDecrypt(c, s[..c.size], s[c.size..])
  }

  lemma CbcEncryptStep(c: Cipher, iv: Block, first: Block, rest: seq<Byte>)
    requires IsCipher(c) && |iv| == |first| == c.size
    ensures |c.encrypt(Xor(first, iv))| == c.size
    ensures CbcEncrypt(c, iv, first + rest) ==
            c.encrypt(Xor(first, iv)) + CbcEncrypt(c, c.encrypt(Xor(first, iv)), rest)
  {
    hide XorByte;
    assert (first + rest)[..c.size] == first && (first + rest)[c.size..] == rest;
  }

  lemma CbcDecryptStep(c: Cipher, iv: Block, first: Block, rest: seq<Byte>)
    requires IsCipher(c) && |iv| == |first| == c.size
    ensures |c.decrypt(first)| == c.size
    ensures CbcDecrypt(c, iv, first + rest) == Xor(c.decrypt(first), iv) + CbcDecrypt(c, first, rest)
  {
    hide XorByte;
    assert (first + rest)[..c.size] == first && (first + rest)[c.size..] == rest;
  }

  lemma {:induction false} CbcDecryptUndoes(c: Cipher, iv: Block, s: seq<Byte>)
    requires IsCipher(c) && |iv| == c.size && Whole(|s|, c.size)
    ensures |CbcEncrypt(c, iv, s)| == |s|
    ensures CbcDecrypt(c, iv, CbcEncrypt(c, iv, s)) == s
    decreases |s|
  {
    if |s| >= c.size {
      hide CbcEncrypt, CbcDecrypt, XorByte;
      var first, rest := s[..c.size], s[c.size..];
      assert s == first + rest;
      var block := c.encrypt(Xor(first, iv));
      CbcEncryptStep(c, iv, first, rest);
      CbcDecryptUndoes(c, block, rest);
      CbcDecryptStep(c, iv, block, CbcEncrypt(c, block, rest));
      XorTwice(first, iv);
    }
  }

  lemma {:induction false} CbcEncryptUndoes(c: Cipher, iv: Block, s: seq<Byte>)
    requires IsCipher(c) && |iv| == c.size && Whole(|s|, c.size)
    ensures |CbcDecrypt(c, iv, s)| == |s|
    ensures CbcEncrypt(c, iv, CbcDecrypt(c, iv, s)) == s
    decreases |s|
  {
    if |s| >= c.size {
      hide CbcEncrypt, CbcDecrypt, XorByte;
      var first, rest := s[..c.size], s[c.size..];
      assert s == first + rest;
      var plain := Xor(c.decrypt(first), iv);
      CbcDecryptStep(c, iv, first, rest);
      CbcEncryptUndoes(c, first, rest);
      CbcEncryptStep(c, iv, plain, CbcDecrypt(c, first, rest));
      XorTwice(c.decrypt(first), iv);
    }
  }

  // ----- unsafeEncrypt and unsafeDecrypt

  datatype Mode = Des2Ecb | Des2Cbc | OtherMode

  datatype CryptError = InvalidKeySize | EqualHalves | NoRandomness | UnsupportedMode | InvalidLength | InvalidPadding

  /** `des2Cipher`: two different 8-byte halves, expanded to K1 K2 K1. */
  function Des2Key(key: seq<Byte>): Result<seq<Byte>, CryptError> {
    if |key| != 16 then Err(InvalidKeySize)
    else if key[..8] == key[8..] then Err(EqualHalves)
    else Ok(key + key[..8])
  }

  /** Triple DES as a family of block ciphers of eight bytes. */
  type TripleDes = seq<Byte> -> Cipher

  ghost predicate IsTripleDes(des: TripleDes) { forall key :: IsCipher(des(key)) && des(key).size == 8 }

  method UnsafeEncrypt(des: TripleDes, key: seq<Byte>, mode: Mode, plaintext: seq<Byte>, random: Option<Block>)
    returns (r: Result<seq<Byte>, CryptError>)
    requires IsTripleDes(des) && (random.Some? ==> |random.value| == 8)
    ensures r == Encrypted(des, key, mode, plaintext, random)
  {
    hide Ecb, CbcEncrypt, Pad, Whole;
    var expanded := Des2Key(key);
    if expanded.Err? {
      return Err(expanded.error);
    }
    var block := des(expanded.value);
    var padded := Pad(plaintext, block.size);
    PaddedIsWhole(plaintext, block.size);
    match mode
    case Des2Ecb =>
      var ciphertext := EcbBytes(block.encrypt, block.size, padded);
      return Ok(ciphertext);
    case Des2Cbc =>
      if random.None? {
        return Err(NoRandomness);
      }
      return Ok(random.value + CbcEncrypt(block, random.value, padded));
    case OtherMode =>
      return Err(UnsupportedMode);
  }

  ghost function Encrypted(des: TripleDes, key: seq<Byte>, mode: Mode, plaintext: seq<Byte>, random: Option<Block>)
    : Result<seq<Byte>, CryptError>
    requires IsTripleDes(des) && (random.Some? ==> |random.value| == 8)
  {
    var expanded := Des2Key(key);
    if expanded.Err? then Err(expanded.error)
    else
      var block := des(expanded.value);
      match mode
      case Des2Ecb => Ok(Ecb(block.encrypt, 8, Pad(plaintext, 8)))
      case Des2Cbc =>
        if random.None? then Err(NoRandomness)
        else Ok(random.value + CbcEncrypt(block, random.value, Pad(plaintext, 8)))
      case OtherMode => Err(UnsupportedMode)
  }

  method UnsafeDecrypt(des: TripleDes, key: seq<Byte>, mode: Mode, ciphertext: seq<Byte>)
    returns (r: Result<seq<Byte>, CryptError>)
    requires IsTripleDes(des)
    ensures r == Decrypted(des, key, mode, ciphertext)
  {
    hide Ecb, CbcDecrypt, Unpad, Whole;
    var expanded := Des2Key(key);
    if expanded.Err? {
      return Err(expanded.error);
    }
    var block := des(expanded.value);
    var plaintext: seq<Byte>;
    match mode {
      case Des2Ecb =>
        if |ciphertext| == 0 || |ciphertext| % block.size != 0 {
          return Err(InvalidLength);
        }
        WholeMeansNoRemainder(|ciphertext|, 8);
        plaintext := EcbBytes(block.decrypt, block.size, ciphertext);
      case Des2Cbc =>
        if |ciphertext| < 2 * block.size || |ciphertext| % block.size != 0 {
          return Err(InvalidLength);
        }
        plaintext := CbcDecrypt(block, ciphertext[..block.size], ciphertext[block.size..]);
      case OtherMode =>
        return Err(UnsupportedMode);
    }
    var unpadded := Unpad(plaintext, block.size);
    return if unpadded.None? then Err(InvalidPadding) else Ok(unpadded.value);
  }

  ghost function Decrypted(des: TripleDes, key: seq<Byte>, mode: Mode, ciphertext: seq<Byte>)
    : Result<seq<Byte>, CryptError>
    requires IsTripleDes(des)
  {
    var expanded := Des2Key(key);
    if expanded.Err? then Err(expanded.error)
    else if mode.OtherMode? then Err(UnsupportedMode)
    else if |ciphertext| % 8 != 0 || |ciphertext| < (if mode.Des2Ecb? then 8 else 16) then Err(InvalidLength)
    else
      var block := des(expanded.value);
      var plaintext := if mode.Des2Ecb? then Ecb(block.decrypt, 8, ciphertext)
                       else CbcDecrypt(block, ciphertext[..8], ciphertext[8..]);
      var unpadded := Unpad(plaintext, 8);
      if unpadded.None? then Err(InvalidPadding) else Ok(unpadded.value)
  }

  /** For any block bijection, key and mode: a ciphertext decrypts to a plaintext exactly when it is an
      encryption of that plaintext, under some initialization vector. */
  lemma DecryptsExactly(des: TripleDes, key: seq<Byte>, mode: Mode, ciphertext: seq<Byte>, plaintext: seq<Byte>)
    requires IsTripleDes(des)
    ensures Decrypted(des, key, mode, ciphertext) == Ok(plaintext) <==>
      exists iv: Block | |iv| == 8 :: Encrypted(des, key, mode, plaintext, Some(iv)) == Ok(ciphertext)
  {
    if Decrypted(des, key, mode, ciphertext) == Ok(plaintext) {
      DecryptedWasEncrypted(des, key, mode, ciphertext, plaintext);
    }
    forall iv: Block | |iv| == 8 && Encrypted(des, key, mode, plaintext, Some(iv)) == Ok(ciphertext)
      ensures Decrypted(des, key, mode, ciphertext) == Ok(plaintext)
    {
      EncryptedDecrypts(des, key, mode, ciphertext, plaintext, iv);
    }
  }

  /** The key is sixteen bytes in two different halves, used as first, second, first. */
  lemma Des2KeyExactly(key: seq<Byte>)
    ensures Des2Key(key).Ok? <==> |key| == 16 && exists i | 0 <= i < 8 :: key[i] != key[8 + i]
    ensures |key| != 16 ==> Des2Key(key) == Err(InvalidKeySize)
    ensures Des2Key(key).Ok? ==>
      && |Des2Key(key).value| == 24
      && forall i | 0 <= i < 24 :: Des2Key(key).value[i] == key[if i < 16 then i else i - 16]
  {
    if |key| == 16 && key[..8] != key[8..] {
      var i :| 0 <= i < 8 && key[..8][i] != key[8..][i];
    }
    if |key| == 16 && key[..8] == key[8..] {
      forall i | 0 <= i < 8 ensures key[i] == key[8 + i] { assert key[..8][i] == key[8..][i]; }
    }
  }

  /** Encryption fails exactly for a bad key, an unknown mode, or a CBC vector that could not be drawn. */
  lemma EncryptsExactly(des: TripleDes, key: seq<Byte>, mode: Mode, plaintext: seq<Byte>, random: Option<Block>)
    requires IsTripleDes(des) && (random.Some? ==> |random.value| == 8)
    ensures Encrypted(des, key, mode, plaintext, random).Ok? <==>
      Des2Key(key).Ok? && (mode.Des2Ecb? || (mode.Des2Cbc? && random.Some?))
    ensures var r := Encrypted(des, key, mode, plaintext, random);
      r.Ok? ==> |r.value| == (if mode.Des2Cbc? then 8 else 0) + |plaintext| + 8 - |plaintext| % 8
    ensures var r := Encrypted(des, key, mode, plaintext, random);
      r.Ok? && mode.Des2Cbc? ==> r.value[..8] == random.value
  {
    hide Ecb, CbcEncrypt, Undoes, Des2Key;
    if Des2Key(key).Ok? {
      var block := des(Des2Key(key).value);
      PaddedIsWhole(plaintext, 8);
      EcbUndoes(block.encrypt, block.decrypt, 8, Pad(plaintext, 8));
      if random.Some? { CbcDecryptUndoes(block, random.value, Pad(plaintext, 8)); }
    }
  }

  /** Which error encryption gives: the key's, then the mode's, or the vector's. */
  lemma EncryptErrors(des: TripleDes, key: seq<Byte>, mode: Mode, plaintext: seq<Byte>, random: Option<Block>)
    requires IsTripleDes(des) && (random.Some? ==> |random.value| == 8)
    ensures var r := Encrypted(des, key, mode, plaintext, random);
      && (Des2Key(key).Err? ==> r == Err(Des2Key(key).error))
      && (Des2Key(key).Ok? ==> (r == Err(UnsupportedMode) <==> mode.OtherMode?))
      && (Des2Key(key).Ok? ==> (r == Err(NoRandomness) <==> mode.Des2Cbc? && random.None?))
  {
    hide Ecb, CbcEncrypt, Pad, Des2Key;
  }

  /** Encryption runs the cipher forward under the expanded key, in CBC on the exclusive or with the vector. */
  lemma FirstBlock(des: TripleDes, key: seq<Byte>, mode: Mode, plaintext: seq<Byte>, iv: Block)
    requires IsTripleDes(des) && |iv| == 8 && Des2Key(key).Ok? && !mode.OtherMode?
    ensures var r, padded := Encrypted(des, key, mode, plaintext, Some(iv)).value, Pad(plaintext, 8);
      && |padded| >= 8
      && if mode.Des2Ecb? then |r| >= 8 && r[..8] == des(key + key[..8]).encrypt(padded[..8])
         else |r| >= 16 && r[8..16] == des(key + key[..8]).encrypt(Xor(padded[..8], iv))
  {
    hide Ecb, CbcEncrypt, Pad, XorByte;
    var block, padded := des(key + key[..8]), Pad(plaintext, 8);
    PaddedIsWhole(plaintext, 8);
    assert padded == padded[..8] + padded[8..];
    EcbStep(block.encrypt, 8, padded[..8], padded[8..]);
    CbcEncryptStep(block, iv, padded[..8], padded[8..]);
  }

  /** With a good key and a known mode, a ciphertext of the wrong length is refused for its length, and every
      other one that does not decrypt for its padding. */
  lemma DecryptErrors(des: TripleDes, key: seq<Byte>, mode: Mode, ciphertext: seq<Byte>)
    requires IsTripleDes(des)
    ensures var r := Decrypted(des, key, mode, ciphertext);
      && (Des2Key(key).Err? ==> r == Err(Des2Key(key).error))
      && (Des2Key(key).Ok? && mode.OtherMode? ==> r == Err(UnsupportedMode))
      && (Des2Key(key).Ok? && !mode.OtherMode? ==>
            && (r == Err(InvalidLength) <==>
                  |ciphertext| % 8 != 0 || |ciphertext| == 0 || (mode.Des2Cbc? && |ciphertext| < 16))
            && (r.Err? ==> r.error.InvalidLength? || r.error.InvalidPadding?))
  {
    hide Ecb, CbcDecrypt, Unpad, Des2Key;
    if |ciphertext| % 8 == 0 && |ciphertext| > 0 { MultipleAtLeast(|ciphertext|, 8); }
  }

  lemma EncryptedDecrypts(
    des: TripleDes, key: seq<Byte>, mode: Mode, ciphertext: seq<Byte>, plaintext: seq<Byte>, iv: Block)
    requires IsTripleDes(des) && |iv| == 8
    requires Encrypted(des, key, mode, plaintext, Some(iv)) == Ok(ciphertext)
    ensures Decrypted(des, key, mode, ciphertext) == Ok(plaintext)
  {
    hide Ecb, CbcEncrypt, CbcDecrypt, Pad, Unpad, Undoes;
    var block, padded := des(Des2Key(key).value), Pad(plaintext, 8);
    PaddedIsWhole(plaintext, 8);
    UnpadExactly(padded, plaintext, 8);
    if mode.Des2Ecb? {
      EcbUndoes(block.encrypt, block.decrypt, 8, padded);
    } else {
      CbcDecryptUndoes(block, iv, padded);
      assert ciphertext[..8] == iv && ciphertext[8..] == CbcEncrypt(block, iv, padded);
      ModStep(|ciphertext|, 8);
    }
  }

  lemma DecryptedWasEncrypted(
    des: TripleDes, key: seq<Byte>, mode: Mode, ciphertext: seq<Byte>, plaintext: seq<Byte>)
    requires IsTripleDes(des)
    requires Decrypted(des, key, mode, ciphertext) == Ok(plaintext)
    ensures exists iv: Block | |iv| == 8 :: Encrypted(des, key, mode, plaintext, Some(iv)) == Ok(ciphertext)
  {
    hide Ecb, CbcEncrypt, CbcDecrypt, Pad, Unpad, Undoes;
    var block, iv := des(Des2Key(key).value), ciphertext[..8];
    WholeMeansNoRemainder(|ciphertext|, 8);
    if mode.Des2Ecb? {
      UnpadExactly(Ecb(block.decrypt, 8, ciphertext), plaintext, 8);
      EcbUndoes(block.decrypt, block.encrypt, 8, ciphertext);
    } else {
      UnpadExactly(CbcDecrypt(block, iv, ciphertext[8..]), plaintext, 8);
      CbcEncryptUndoes(block, iv, ciphertext[8..]);
      assert ciphertext == iv + ciphertext[8..];
    }
    assert Encrypted(des, key, mode, plaintext, Some(iv)) == Ok(ciphertext);
  }
}
