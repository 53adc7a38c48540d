/** RSA decryption of a TLS premaster secret (section 7.4.7.1 of RFC 5246): the version
    and length tests are combined as masks, and a random secret replaces a bad one. */
module RsaPremaster {
  import opened Words
  import opened ConstantTime

  const SSL_MAX_MASTER_KEY_LENGTH: nat := 48
  const RET_OSSL_OK: int32 := 1
  const RET_OSSL_ERR: int32 := 0
  const CKR_OK: ulong := 0

  datatype TlsPadding = TlsPadding(enabled: bool, clientMajor: byte, clientMinor: byte,
                                   altMajor: byte, altMinor: byte)

  // ----- branching meaning

  predicate VersionAccepted(p: TlsPadding, major: byte, minor: byte) {
    (major == p.clientMajor && minor == p.clientMinor)
    || (p.altMajor != 0 && major == p.altMajor && minor == p.altMinor)
  }

  /** What the standard asks for. */
  predicate PremasterAccepted(p: TlsPadding, secret: seq<byte>, size: ulong)
    requires |secret| >= SSL_MAX_MASTER_KEY_LENGTH
  {
    size == SSL_MAX_MASTER_KEY_LENGTH && VersionAccepted(p, secret[0], secret[1])
  }

  /** The status and size words the masks take for success and for the size of a secret. */
  predicate StatusAccepted(rv: ulong) { rv == CKR_OK || rv > TWO_63 }

  predicate SizeAccepted(size: ulong) {
    size == SSL_MAX_MASTER_KEY_LENGTH || (size >= TWO_63 && size != TWO_63 + SSL_MAX_MASTER_KEY_LENGTH)
  }

  /** What the masks accept. */
  predicate PremasterTaken(p: TlsPadding, secret: seq<byte>, size: ulong)
    requires |secret| >= SSL_MAX_MASTER_KEY_LENGTH
  {
    SizeAccepted(size) && VersionAccepted(p, secret[0], secret[1])
  }

  // ----- the masks

  /** constant_equal as a word. */
  function EqualBit(a: ulong, b: ulong): (r: ulong)
    ensures r <= 1
  {
    EqualValue(a, b);
    Equal(a, b)
  }

  lemma BitLogic(a: nat, b: nat)
    requires a <= 1 && b <= 1
    ensures And(a, b) == (if a == 1 && b == 1 then 1 else 0)
    ensures Or(a, b) == (if a == 1 || b == 1 then 1 else 0)
  {
    assert And(1, 1) == 1 && Or(1, 1) == 1;
  }

  function VersionCond(p: TlsPadding, major: byte, minor: byte): (r: nat) {
    var client := And(EqualBit(major, p.clientMajor), EqualBit(minor, p.clientMinor));
    if p.altMajor != 0
    then Or(client, And(EqualBit(major, p.altMajor), EqualBit(minor, p.altMinor)))
    else client
  }

  lemma VersionCondMeaning(p: TlsPadding, major: byte, minor: byte)
    ensures VersionCond(p, major, minor) == if VersionAccepted(p, major, minor) then 1 else 0
  {
    EqualBelowTop(major, p.clientMajor);
    EqualBelowTop(minor, p.clientMinor);
    EqualBelowTop(major, p.altMajor);
    EqualBelowTop(minor, p.altMinor);
    BitLogic(EqualBit(major, p.clientMajor), EqualBit(minor, p.clientMinor));
    BitLogic(EqualBit(major, p.altMajor), EqualBit(minor, p.altMinor));
    BitLogic(And(EqualBit(major, p.clientMajor), EqualBit(minor, p.clientMinor)),
             And(EqualBit(major, p.altMajor), EqualBit(minor, p.altMinor)));
  }

  /** The status mask tells success exactly for status words up to 2^63. */
  lemma StatusDecidesExactlyWhen(rv: ulong)
    ensures EqualBit(rv, CKR_OK) == (if StatusAccepted(rv) then 1 else 0)
    ensures (StatusAccepted(rv) <==> rv == CKR_OK) <==> rv <= TWO_63
  {
    EqualValue(rv, CKR_OK);
  }

  /** The size mask tells 48 exactly for sizes below 2^63, and for the one word above that
      differs from 48 in the top digit only. */
  lemma SizeDecidesExactlyWhen(size: ulong)
    ensures EqualBit(size, SSL_MAX_MASTER_KEY_LENGTH) == (if SizeAccepted(size) then 1 else 0)
    ensures (SizeAccepted(size) <==> size == SSL_MAX_MASTER_KEY_LENGTH)
       <==> size < TWO_63 || size == TWO_63 + SSL_MAX_MASTER_KEY_LENGTH
  {
    EqualValue(size, SSL_MAX_MASTER_KEY_LENGTH);
    XorBeyondTop(size);
  }

  lemma XorBeyondTop(size: ulong)
    ensures Xor(size, 48) > TWO_63 <==> size >= TWO_63 && size != TWO_63 + 48
  {
    OpRange64(size, 48);
    XorShr(size, 48, 63);
    TopBit(size);
    TopBit(48);
    TopBit(Xor(size, 48));
    XorCancel(size, TWO_63 + 48, 48);
    Pow2Values();
    XorAbove(48, 63);
  }

  /** The masks agree with the standard exactly for those sizes, and for refused versions. */
  lemma PremasterDecidedExactlyWhen(p: TlsPadding, secret: seq<byte>, size: ulong)
    requires |secret| >= SSL_MAX_MASTER_KEY_LENGTH
    ensures (PremasterTaken(p, secret, size) <==> PremasterAccepted(p, secret, size))
       <==> (size < TWO_63 || size == TWO_63 + SSL_MAX_MASTER_KEY_LENGTH || !VersionAccepted(p, secret[0], secret[1]))
  {
    SizeDecidesExactlyWhen(size);
  }

  /** p11prov_tls_constant_time_depadding, once the random secret is drawn. */
  method ConstantTimeDepad(p: TlsPadding, out: array<byte>, buf: array<byte>, size: ulong, random: array<byte>)
    returns (outSize: ulong, cond: ulong)
    requires out.Length >= SSL_MAX_MASTER_KEY_LENGTH && buf.Length >= SSL_MAX_MASTER_KEY_LENGTH
    requires random.Length == SSL_MAX_MASTER_KEY_LENGTH && buf.Length < TWO_63
    modifies out
    ensures outSize == SSL_MAX_MASTER_KEY_LENGTH
    ensures cond == if PremasterTaken(p, old(buf[..]), size) then 1 else 0
    ensures cond == 1 <==>
      && (size == 48 || (size >= TWO_63 && size != TWO_63 + 48))
      && ((old(buf[0]) == p.clientMajor && old(buf[1]) == p.clientMinor)
          || (p.altMajor != 0 && old(buf[0]) == p.altMajor && old(buf[1]) == p.altMinor))
    ensures out[..SSL_MAX_MASTER_KEY_LENGTH] ==
      if PremasterTaken(p, old(buf[..]), size) then old(buf[..SSL_MAX_MASTER_KEY_LENGTH]) else old(random[..])
    ensures out[SSL_MAX_MASTER_KEY_LENGTH..] == old(out[SSL_MAX_MASTER_KEY_LENGTH..])
  {
    cond := EqualBit(size, SSL_MAX_MASTER_KEY_LENGTH);
    SizeDecidesExactlyWhen(size);
    VersionCondMeaning(p, buf[0], buf[1]);
    BitLogic(cond, VersionCond(p, buf[0], buf[1]));
    cond := And(cond, VersionCond(p, buf[0], buf[1]));
    SelectBuf(cond, SSL_MAX_MASTER_KEY_LENGTH, out, buf, random);
    assert old(random[..SSL_MAX_MASTER_KEY_LENGTH]) == old(random[..]);
    outSize := SSL_MAX_MASTER_KEY_LENGTH;
  }

  // ----- the PKCS#1 branch of decrypt

  /** The token's answer: its status, the size it reports and the octets it wrote. */
  datatype TokenReply = TokenReply(rv: ulong, size: ulong, written: seq<byte>)

  /** What the token leaves in the zeroed buffer of the size of the key. */
  function Decrypted(reply: TokenReply, keySize: nat): (d: seq<byte>)
    requires |reply.written| <= keySize
    ensures |d| == keySize && d[..|reply.written|] == reply.written
    ensures forall k :: |reply.written| <= k < keySize ==> d[k] == 0
  {
    reply.written + seq(keySize - |reply.written|, _ => 0)
  }

  /** With TLS padding the space checks let these sizes through. */
  predicate SpaceAccepted(outsize: nat, keySize: nat) {
    outsize >= keySize || outsize >= SSL_MAX_MASTER_KEY_LENGTH
  }

  /** The depadding reads the zeroed buffer, and writes the output, at this index. */
  predicate Touched(at: nat) { at < SSL_MAX_MASTER_KEY_LENGTH }

  /** All of it lies inside both exactly when the key has at least 48 octets. */
  lemma DepaddingStaysInsideExactlyWhen(outsize: nat, keySize: nat)
    requires SpaceAccepted(outsize, keySize)
    ensures (forall at: nat :: Touched(at) ==> at < keySize && at < outsize) <==> keySize >= SSL_MAX_MASTER_KEY_LENGTH
  {
    if keySize < SSL_MAX_MASTER_KEY_LENGTH { assert Touched(keySize); }
  }

  /** Space checks, token call and masked result for CKM_RSA_PKCS. The random generator
      may fail, which is the only other way out. What the source does with a key of fewer than
      48 octets and TLS padding, once it has random octets, is not defined. */
  method Pkcs1Decrypt(p: TlsPadding, out: array<byte>, outsize: nat, keySize: nat,
                      reply: TokenReply, randomOk: bool, random: array<byte>)
    returns (result: int32, outlen: nat, defined: bool)
    requires outsize <= out.Length && random != out && keySize < TWO_63
    requires |reply.written| <= keySize
    requires random.Length == SSL_MAX_MASTER_KEY_LENGTH
    modifies out
    ensures result == RET_OSSL_OK || result == RET_OSSL_ERR
    ensures !defined <==>
              (p.enabled && (outsize >= keySize || outsize >= 48) && randomOk && keySize < 48)
    // with TLS padding: the secret, or as many random octets, and the status
    ensures p.enabled && (outsize >= keySize || outsize >= 48) && randomOk && keySize >= 48 ==>
      var d := Decrypted(reply, keySize);
      var accepted :=
        && (reply.size == 48 || (reply.size >= TWO_63 && reply.size != TWO_63 + 48))
        && ((d[0] == p.clientMajor && d[1] == p.clientMinor)
            || (p.altMajor != 0 && d[0] == p.altMajor && d[1] == p.altMinor));
      && (result == RET_OSSL_OK <==> (reply.rv == CKR_OK || reply.rv > TWO_63) && accepted)
      && outlen == SSL_MAX_MASTER_KEY_LENGTH <= out.Length
      && out[..SSL_MAX_MASTER_KEY_LENGTH] ==
           (if accepted then d[..SSL_MAX_MASTER_KEY_LENGTH] else old(random[..]))
      && out[SSL_MAX_MASTER_KEY_LENGTH..] == old(out[SSL_MAX_MASTER_KEY_LENGTH..])
    ensures p.enabled && ((outsize < keySize && outsize < 48) || !randomOk) ==>
      result == RET_OSSL_ERR && out[..] == old(out[..])
    // without it: the token's octets and status
    ensures !p.enabled && outsize < keySize ==> result == RET_OSSL_ERR && out[..] == old(out[..])
    ensures !p.enabled && outsize >= keySize ==>
      && (result == RET_OSSL_OK <==> reply.rv == CKR_OK || reply.rv > TWO_63) && outlen == reply.size
      && out[..|reply.written|] == reply.written
      && out[|reply.written|..] == old(out[|reply.written|..])
  {
    result, outlen, defined := RET_OSSL_ERR, 0, true;
    if outsize < keySize {
      if p.enabled {
        if outsize < SSL_MAX_MASTER_KEY_LENGTH { return; }
      } else {
        return;
      }
    }
    StatusDecidesExactlyWhen(reply.rv);
    var cond: ulong := EqualBit(reply.rv, CKR_OK);
    if p.enabled {
      var buf := new byte[keySize](_ => 0);
      forall i | 0 <= i < |reply.written| { buf[i] := reply.written[i]; }
      assert buf[..] == Decrypted(reply, keySize);
      if !randomOk { return; }
      if keySize < SSL_MAX_MASTER_KEY_LENGTH { return RET_OSSL_ERR, 0, false; }
      var tlsCond;
      outlen, tlsCond := ConstantTimeDepad(p, out, buf, reply.size, random);
      BitLogic(cond, tlsCond);
      cond := And(cond, tlsCond);
    } else {
      forall i | 0 <= i < |reply.written| { out[i] := reply.written[i]; }
      outlen := reply.size;
    }
    SelectIntMeaning(cond, RET_OSSL_OK, RET_OSSL_ERR);
    result := SelectInt(cond, RET_OSSL_OK, RET_OSSL_ERR);
  }
}
