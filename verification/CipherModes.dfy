/** The ciphers behind the generic classes: block ciphers in CBC mode, ciphers that add a keystream,
    of which arcfour throws the beginning away, and the plain block ciphers that the names
    3des-ctr, blowfish-ctr and cast128-ctr stand for. All of them are what the generic classes
    need. */
module CipherModes {
  import opened Common
  import N = FrameGeneric

  /** A block cipher under one key. */
  datatype BlockCipher = BlockCipher(encipher: Bytes -> Bytes, decipher: Bytes -> Bytes)

  type Xor = (byte, byte) -> byte

  ghost predicate Undoes(xor: Xor) {
    forall a: byte, b: byte {:trigger xor(xor(a, b), b)} :: xor(xor(a, b), b) == a
  }

  ghost predicate Permutes(k: BlockCipher, n: nat) {
    && (forall b: Bytes {:trigger k.encipher(b)} ::
          |b| == n ==> |k.encipher(b)| == n && k.decipher(k.encipher(b)) == b)
    && (forall b: Bytes {:trigger k.decipher(b)} :: |b| == n ==> |k.decipher(b)| == n)
  }

  function Added(xor: Xor, a: Bytes, b: Bytes): (r: Bytes)
    ensures |r| == |a|
  {
    seq(|a|, i requires 0 <= i < |a| => if i < |b| then xor(a[i], b[i]) else a[i])
  }

  lemma AddedTwice(xor: Xor, a: Bytes, b: Bytes)
    requires Undoes(xor)
    ensures Added(xor, Added(xor, a, b), b) == a
  {
  }

  // ----- CBC -----

  /** What an instance has put out after being fed `x`: the whole blocks, each chained to the one
      before. */
  function CbcEncrypt(k: BlockCipher, xor: Xor, n: nat, iv: Bytes, x: Bytes): Bytes
    requires n > 0
    decreases |x|
  {
    if |x| < n then []
    else
      var c := k.encipher(Added(xor, x[..n], iv));
      c + CbcEncrypt(k, xor, n, c, x[n..])
  }

  function CbcDecrypt(k: BlockCipher, xor: Xor, n: nat, iv: Bytes, x: Bytes): Bytes
    requires n > 0
    decreases |x|
  {
    if |x| < n then []
    else Added(xor, k.decipher(x[..n]), iv) + CbcDecrypt(k, xor, n, x[..n], x[n..])
  }

  /** The length of the whole blocks in `m` bytes. */
  function WholeOf(m: nat, n: nat): nat
    requires n > 0
  {
    if m < n then 0 else n + WholeOf(m - n, n)
  }

  lemma {:induction false} WholeOfWhole(m: nat, n: nat)
    requires n == 8 || n == 16
    ensures WholeOf(m, n) <= m && (m % n == 0 ==> WholeOf(m, n) == m)
  {
    if m >= n {
      WholeOfWhole(m - n, n);
    }
  }

  lemma {:induction false} CbcEncryptGrows(k: BlockCipher, xor: Xor, n: nat, iv: Bytes, x: Bytes, y: Bytes)
    requires n > 0 && Permutes(k, n)
    ensures |CbcEncrypt(k, xor, n, iv, x)| == WholeOf(|x|, n)
    ensures CbcEncrypt(k, xor, n, iv, x) <= CbcEncrypt(k, xor, n, iv, x + y)
    decreases |x|
  {
    if |x| >= n {
      assert (x + y)[..n] == x[..n] && (x + y)[n..] == x[n..] + y;
      CbcEncryptGrows(k, xor, n, k.encipher(Added(xor, x[..n], iv)), x[n..], y);
    }
  }

  lemma {:induction false} CbcDecryptGrows(k: BlockCipher, xor: Xor, n: nat, iv: Bytes, x: Bytes, y: Bytes)
    requires n > 0 && Permutes(k, n)
    ensures |CbcDecrypt(k, xor, n, iv, x)| == WholeOf(|x|, n)
    ensures CbcDecrypt(k, xor, n, iv, x) <= CbcDecrypt(k, xor, n, iv, x + y)
    decreases |x|
  {
    if |x| >= n {
      assert (x + y)[..n] == x[..n] && (x + y)[n..] == x[n..] + y;
      CbcDecryptGrows(k, xor, n, x[..n], x[n..], y);
    }
  }

  lemma {:induction false} CbcInverse(k: BlockCipher, xor: Xor, n: nat, iv: Bytes, x: Bytes)
    requires n > 0 && Permutes(k, n) && Undoes(xor) && WholeOf(|x|, n) == |x|
    ensures CbcDecrypt(k, xor, n, iv, CbcEncrypt(k, xor, n, iv, x)) == x
    decreases |x|
  {
    if |x| >= n {
      var c := k.encipher(Added(xor, x[..n], iv));
      var rest := CbcEncrypt(k, xor, n, c, x[n..]);
      assert (c + rest)[..n] == c && (c + rest)[n..] == rest;
      CbcInverse(k, xor, n, c, x[n..]);
      AddedTwice(xor, x[..n], iv);
    }
  }

  function CbcKeys(k: BlockCipher, xor: Xor, n: nat, iv: Bytes, hmac: Bytes -> Bytes, macLen: nat, etm: bool): N.Keys
    requires n > 0
  {
    N.Keys((x: Bytes) => CbcEncrypt(k, xor, n, iv, x), (x: Bytes) => CbcDecrypt(k, xor, n, iv, x),
           hmac, n, macLen, etm)
  }

  /** A block cipher in CBC mode, with any MAC that is long enough. */
  lemma CbcIsLawful(k: BlockCipher, xor: Xor, n: nat, iv: Bytes, hmac: Bytes -> Bytes, macLen: nat, etm: bool)
    requires (n == 8 || n == 16) && Permutes(k, n) && Undoes(xor)
    requires forall x: Bytes :: |hmac(x)| >= macLen
    ensures var keys := CbcKeys(k, xor, n, iv, hmac, macLen, etm); N.Lawful(keys) && N.InStep(keys, [])
  {
    hide Undoes, Permutes, CbcEncrypt, CbcDecrypt;
    var keys := CbcKeys(k, xor, n, iv, hmac, macLen, etm);
    forall x: Bytes
      ensures |keys.encrypt(x)| <= |x| && |keys.decrypt(x)| <= |x|
      ensures |x| % n == 0 ==> |keys.encrypt(x)| == |x| == |keys.decrypt(x)| && keys.decrypt(keys.encrypt(x)) == x
    {
      WholeOfWhole(|x|, n);
      CbcEncryptGrows(k, xor, n, iv, x, []);
      CbcDecryptGrows(k, xor, n, iv, x, []);
      if |x| % n == 0 {
        CbcInverse(k, xor, n, iv, x);
      }
    }
    forall x: Bytes, y: Bytes
      ensures keys.encrypt(x) <= keys.encrypt(x + y) && keys.decrypt(x) <= keys.decrypt(x + y)
    {
      CbcEncryptGrows(k, xor, n, iv, x, y);
      CbcDecryptGrows(k, xor, n, iv, x, y);
    }
    assert keys.decrypt([]) == [] && keys.encrypt([]) == [];
  }

  // ----- Block by block -----

  /** What an instance has put out after being fed `x`: each whole block on its own. */
  function Blockwise(f: Bytes -> Bytes, n: nat, x: Bytes): Bytes
    requires n > 0
    decreases |x|
  {
    if |x| < n then [] else f(x[..n]) + Blockwise(f, n, x[n..])
  }

  function BlockwiseKeys(k: BlockCipher, n: nat, hmac: Bytes -> Bytes, macLen: nat, etm: bool): N.Keys
    requires n > 0
  {
    N.Keys((x: Bytes) => Blockwise(k.encipher, n, x), (x: Bytes) => Blockwise(k.decipher, n, x),
           hmac, n, macLen, etm)
  }

  function NoChaining(): Xor {
    (a: byte, b: byte) => a
  }

  lemma NothingAdded(a: Bytes, b: Bytes)
    ensures Added(NoChaining(), a, b) == a
  {
  }

  /** It is CBC without the chaining. */
  lemma {:induction false} BlockwiseIsCbc(k: BlockCipher, n: nat, iv: Bytes, x: Bytes)
    requires n > 0
    ensures Blockwise(k.encipher, n, x) == CbcEncrypt(k, NoChaining(), n, iv, x)
    ensures Blockwise(k.decipher, n, x) == CbcDecrypt(k, NoChaining(), n, iv, x)
    decreases |x|
  {
    if |x| >= n {
      NothingAdded(x[..n], iv);
      NothingAdded(k.decipher(x[..n]), iv);
      BlockwiseIsCbc(k, n, k.encipher(x[..n]), x[n..]);
      BlockwiseIsCbc(k, n, x[..n], x[n..]);
    }
  }

  lemma BlockwiseIsLawful(k: BlockCipher, n: nat, hmac: Bytes -> Bytes, macLen: nat, etm: bool)
    requires (n == 8 || n == 16) && Permutes(k, n)
    requires forall x: Bytes :: |hmac(x)| >= macLen
    ensures var keys := BlockwiseKeys(k, n, hmac, macLen, etm); N.Lawful(keys) && N.InStep(keys, [])
  {
    CbcIsLawful(k, NoChaining(), n, [], hmac, macLen, etm);
    hide Permutes, CbcEncrypt, CbcDecrypt, Blockwise;
    var keys, chained := BlockwiseKeys(k, n, hmac, macLen, etm), CbcKeys(k, NoChaining(), n, [], hmac, macLen, etm);
    forall x: Bytes
      ensures keys.encrypt(x) == chained.encrypt(x) && keys.decrypt(x) == chained.decrypt(x)
    {
      BlockwiseIsCbc(k, n, [], x);
    }
  }

  // ----- Keystreams -----

  /** What an instance has put out after being fed `x`. */
  function Stream(xor: Xor, keystream: nat -> byte, x: Bytes): Bytes {
    seq(|x|, i requires 0 <= i < |x| => xor(x[i], keystream(i)))
  }

  /** The instance as it is after it has been fed `discard`, whose output is thrown away. */
  function AfterDiscard(instance: Bytes -> Bytes, discard: Bytes): Bytes -> Bytes {
    (x: Bytes) =>
      var before, out := instance(discard), instance(discard + x);
      if |before| <= |out| then out[|before|..] else []
  }

  /** The pair of instances of one cipher, after the discarded bytes. */
  function StreamKeys(xor: Xor, keystream: nat -> byte, discard: Bytes, n: nat, hmac: Bytes -> Bytes,
                      macLen: nat, etm: bool): N.Keys
  {
    var instance := (x: Bytes) => Stream(xor, keystream, x);
    N.Keys(AfterDiscard(instance, discard), AfterDiscard(instance, discard), hmac, n, macLen, etm)
  }

  lemma DiscardedIsStream(xor: Xor, keystream: nat -> byte, discard: Bytes, x: Bytes)
    ensures AfterDiscard((x: Bytes) => Stream(xor, keystream, x), discard)(x)
            == Stream(xor, (i: nat) => keystream(|discard| + i), x)
  {
    var out := Stream(xor, keystream, discard + x);
    assert out[|discard|..] == Stream(xor, (i: nat) => keystream(|discard| + i), x);
  }

  /** A cipher with a keystream, however much of it is thrown away at both ends: from then on the
      two are in step with nothing sent. */
  lemma StreamIsLawful(xor: Xor, keystream: nat -> byte, discard: Bytes, n: nat, hmac: Bytes -> Bytes,
                       macLen: nat, etm: bool)
    requires (n == 8 || n == 16) && Undoes(xor)
    requires forall x: Bytes :: |hmac(x)| >= macLen
    ensures var keys := StreamKeys(xor, keystream, discard, n, hmac, macLen, etm);
            N.Lawful(keys) && N.InStep(keys, [])
  {
    hide AfterDiscard;
    var keys := StreamKeys(xor, keystream, discard, n, hmac, macLen, etm);
    var shifted := (i: nat) => keystream(|discard| + i);
    forall x: Bytes
      ensures keys.encrypt(x) == keys.decrypt(x) == Stream(xor, shifted, x)
    {
      DiscardedIsStream(xor, keystream, discard, x);
    }
    forall x: Bytes
      ensures keys.decrypt(keys.encrypt(x)) == x
    {
      assert Stream(xor, shifted, Stream(xor, shifted, x)) == x;
    }
    assert keys.decrypt([]) == [] && keys.encrypt([]) == [];
  }
}
