/**
 * The AES glue of the crypto provider (firmware/components/crypto/provider.c): PKCS#7 padding
 * around CBC, and the stream mode without padding. The block cipher itself is a parameter.
 */
module Provider {
  import opened Bytes

  const BLOCK := 16

  datatype Cipher = Ctr | CbcPkcs5 | Unknown

  type Iv = b: seq<byte> | |b| == BLOCK witness Repeat(0, BLOCK)

  /** The local 16-byte copy of the IV; a shorter one leaves the rest as `stack` happened to be. */
  function IvCopy(iv: seq<byte>, stack: Iv): Iv {
    if |iv| >= BLOCK then iv[..BLOCK] else iv + stack[|iv|..]
  }

  /** The caller's bytes first, and the stack's only where the caller gave none. */
  lemma IvCopyAt(iv: seq<byte>, stack: Iv, i: nat)
    requires i < 16
    ensures IvCopy(iv, stack)[i] == if i < |iv| then iv[i] else stack[i]
  {
  }

  /** The library's cipher calls: key, 16-byte IV, data. */
  datatype Library = Library(
    cbcEncrypt: (seq<byte>, seq<byte>, seq<byte>) -> seq<byte>,
    cbcDecrypt: (seq<byte>, seq<byte>, seq<byte>) -> seq<byte>,
    ctr: (seq<byte>, seq<byte>, seq<byte>) -> seq<byte>)

  predicate WholeBlocks(x: seq<byte>) {
    |x| % BLOCK == 0
  }

  /** CBC encryption and decryption undo each other on whole blocks, and CTR undoes itself. */
  ghost predicate Lawful(lib: Library) {
    && (forall k, iv, x {:trigger lib.cbcEncrypt(k, iv, x)} :: WholeBlocks(x) ==>
          |lib.cbcEncrypt(k, iv, x)| == |x| && lib.cbcDecrypt(k, iv, lib.cbcEncrypt(k, iv, x)) == x)
    && (forall k, iv, x {:trigger lib.cbcDecrypt(k, iv, x)} :: WholeBlocks(x) ==>
          |lib.cbcDecrypt(k, iv, x)| == |x| && lib.cbcEncrypt(k, iv, lib.cbcDecrypt(k, iv, x)) == x)
    && (forall k, iv, x {:trigger lib.ctr(k, iv, x)} ::
          |lib.ctr(k, iv, x)| == |x| && lib.ctr(k, iv, lib.ctr(k, iv, x)) == x)
  }

  /** How many padding bytes follow a message of `len` bytes: 16 - (len mod 16). */
  function PadLen(len: nat): (n: nat)
    ensures 1 <= n <= BLOCK && (len + n) % BLOCK == 0
  {
    (len / BLOCK + 1) * BLOCK - len
  }

  /** Section 6.3 of RFC 5652. */
  function Pad(p: seq<byte>): (r: seq<byte>)
    ensures WholeBlocks(r) && |p| < |r| <= |p| + BLOCK
  {
    p + Repeat(PadLen(|p|), PadLen(|p|))
  }

  /** The provider's unpadding looks at the last byte only, and gives up on an impossible one. */
  function Unpad(b: seq<byte>): seq<byte>
    requires |b| >= BLOCK
  {
    var pad := b[|b| - 1];
    if 0 < pad <= BLOCK then b[..|b| - pad] else b
  }

  function EncryptSpec(lib: Library, cipher: Cipher, key: seq<byte>, iv: Iv, p: seq<byte>): Option<seq<byte>> {
    match cipher
    case Ctr => Some(lib.ctr(key, iv, p))
    case CbcPkcs5 => Some(lib.cbcEncrypt(key, iv, Pad(p)))
    case Unknown => None
  }

  function DecryptSpec(lib: Library, cipher: Cipher, key: seq<byte>, iv: Iv, c: seq<byte>): Option<seq<byte>>
    requires cipher.CbcPkcs5? ==> c != []
  {
    match cipher
    case Ctr => Some(lib.ctr(key, iv, c))
    case CbcPkcs5 =>
      if !WholeBlocks(c) then None
      else
        var b := lib.cbcDecrypt(key, iv, c);
        if |b| < BLOCK then None else Some(Unpad(b))
    case Unknown => None
  }

  /** Padded length is the next multiple of 16 strictly above the input, whatever the input. */
  lemma PaddedLength(p: seq<byte>, n: nat)
    requires n % BLOCK == 0 && n > |p|
    ensures |Pad(p)| <= n
  {
  }

  lemma UnpadUndoesPad(p: seq<byte>)
    ensures Unpad(Pad(p)) == p
  {
  }

  /**
   * Decryption gives back every plaintext, of every length, in both modes. An IV shorter than 16
   * bytes needs the same leftover stack bytes on both sides.
   */
  lemma DecryptUndoesEncrypt(lib: Library, cipher: Cipher, key: seq<byte>, iv: seq<byte>, p: seq<byte>,
                             encStack: Iv, decStack: Iv)
    requires Lawful(lib) && !cipher.Unknown?
    requires |iv| >= BLOCK || encStack[|iv|..] == decStack[|iv|..]
    ensures var c := EncryptSpec(lib, cipher, key, IvCopy(iv, encStack), p);
            && c.Some? && |c.value| == (if cipher.CbcPkcs5? then |Pad(p)| else |p|)
            && DecryptSpec(lib, cipher, key, IvCopy(iv, decStack), c.value) == Some(p)
  {
  }

  predicate WellPadded(b: seq<byte>)
    requires |b| >= BLOCK
  {
    var pad := b[|b| - 1];
    1 <= pad <= BLOCK && b[|b| - pad..] == Repeat(pad, pad)
  }

  lemma PadUndoesUnpadIff(b: seq<byte>)
    requires WholeBlocks(b) && |b| >= BLOCK
    ensures Pad(Unpad(b)) == b <==> WellPadded(b)
  {
  }

  /**
   * The converse needs the padding in order, because only the last byte is looked at: re-encrypting a
   * decrypted ciphertext gives it back exactly when its padding was well-formed.
   */
  lemma EncryptUndoesDecryptIff(lib: Library, key: seq<byte>, iv: Iv, c: seq<byte>)
    requires Lawful(lib) && c != [] && WholeBlocks(c)
    ensures var b := lib.cbcDecrypt(key, iv, c);
            var p := DecryptSpec(lib, CbcPkcs5, key, iv, c);
            && |b| >= BLOCK && p.Some?
            && (EncryptSpec(lib, CbcPkcs5, key, iv, p.value) == Some(c) <==> WellPadded(b))
  {
    var b := lib.cbcDecrypt(key, iv, c);
    assert |b| == |c| >= BLOCK;
    PadUndoesUnpadIff(b);
    var again := lib.cbcEncrypt(key, iv, Pad(Unpad(b)));
    assert lib.cbcDecrypt(key, iv, again) == Pad(Unpad(b));
    hide Pad, Unpad, WellPadded;
    if again == c { assert Pad(Unpad(b)) == b; }
  }

  /** A block that decrypts to zeros is accepted, yet is not what encrypting its plaintext gives. */
  lemma TamperedPaddingIsAccepted(lib: Library, key: seq<byte>, iv: Iv)
    requires Lawful(lib)
    ensures var c := lib.cbcEncrypt(key, iv, Repeat(0, BLOCK));
            && |c| == BLOCK && DecryptSpec(lib, CbcPkcs5, key, iv, c) == Some(Repeat(0, BLOCK))
            && EncryptSpec(lib, CbcPkcs5, key, iv, Repeat(0, BLOCK)) != Some(c)
  {
    var zeros := Repeat(0, BLOCK);
    var c := lib.cbcEncrypt(key, iv, zeros);
    assert WholeBlocks(zeros) && lib.cbcDecrypt(key, iv, c) == zeros;
    EncryptUndoesDecryptIff(lib, key, iv, c);
  }

  /** pkcs7_pad */
  method Pkcs7Pad(input: seq<byte>, out: array<byte>) returns (n: nat)
    requires out.Length >= |Pad(input)|
    modifies out
    ensures n == |Pad(input)| && out[..n] == Pad(input)
  {
    n := (|input| / BLOCK + 1) * BLOCK;
    var padByte: byte := n - |input|;
    forall i | 0 <= i < |input| {
      out[i] := input[i];
    }
    forall i | 0 <= i < padByte {
      out[|input| + i] := padByte;
    }
    assert out[..n] == Pad(input);
  }

  /** encrypt_func */
  method Encrypt(lib: Library, cipher: Cipher, key: seq<byte>, iv: seq<byte>, stack: Iv, plaintext: seq<byte>)
    returns (r: Option<seq<byte>>)
    ensures r == EncryptSpec(lib, cipher, key, IvCopy(iv, stack), plaintext)
    ensures var iv16 := if |iv| >= 16 then iv[..16] else iv + stack[|iv|..];
            var pad := 16 - |plaintext| % 16;
            && (cipher.Ctr? ==> r == Some(lib.ctr(key, iv16, plaintext)))
            && (cipher.CbcPkcs5? ==> r == Some(lib.cbcEncrypt(key, iv16, plaintext + Repeat(pad, pad))))
            && (cipher.Unknown? ==> r == None)
  {
    var ivLen := if |iv| < BLOCK then |iv| else BLOCK;
    var ivCopy := iv[..ivLen] + stack[ivLen..];
    assert ivCopy == IvCopy(iv, stack);
    if cipher == Ctr {
      return Some(lib.ctr(key, ivCopy, plaintext));
    } else if cipher == CbcPkcs5 {
      var padded := new byte[(|plaintext| / BLOCK + 1) * BLOCK];
      var n := Pkcs7Pad(plaintext, padded);
      return Some(lib.cbcEncrypt(key, ivCopy, padded[..n]));
    }
    return None;
  }

  /** decrypt_func, in the CBC branch on at least one byte of ciphertext. */
  method Decrypt(lib: Library, cipher: Cipher, key: seq<byte>, iv: seq<byte>, stack: Iv, ciphertext: seq<byte>)
    returns (r: Option<seq<byte>>)
    requires Lawful(lib) && (cipher.CbcPkcs5? ==> ciphertext != [])
    ensures r == DecryptSpec(lib, cipher, key, IvCopy(iv, stack), ciphertext)
    ensures var iv16 := if |iv| >= 16 then iv[..16] else iv + stack[|iv|..];
            && (cipher.Ctr? ==> r == Some(lib.ctr(key, iv16, ciphertext)))
            && (cipher.CbcPkcs5? ==> (r.Some? <==> |ciphertext| % 16 == 0))
            && (cipher.CbcPkcs5? && r.Some? ==>
                  var b := lib.cbcDecrypt(key, iv16, ciphertext);
                  var pad := b[|b| - 1];
                  r.value == if 1 <= pad <= 16 then b[..|b| - pad] else b)
            && (cipher.Unknown? ==> r == None)
  {
    var ivLen := if |iv| < BLOCK then |iv| else BLOCK;
    var ivCopy := iv[..ivLen] + stack[ivLen..];
    assert ivCopy == IvCopy(iv, stack);
    if cipher == Ctr {
      return Some(lib.ctr(key, ivCopy, ciphertext));
    } else if cipher == CbcPkcs5 {
      if |ciphertext| % BLOCK != 0 {
        return None;
      }
      var buf := lib.cbcDecrypt(key, ivCopy, ciphertext);
      assert |buf| == |ciphertext| && buf[..|buf|] == buf;
      var pad := buf[|ciphertext| - 1];
      var len := if pad > 0 && pad <= BLOCK then |ciphertext| - pad else |ciphertext|;
      return Some(buf[..len]);
    }
    return None;
  }
}
