/** TLS 1.0 to 1.2 CBC record padding (section 6.2.3.2 of RFC 5246): the branching
    meaning, and the masked loops that compute it without branching on the padding. */
module TlsCbc {
  import opened Words
  import opened ConstantTime

  const AESBLOCK: nat := 16
  const MAX_PADDING: nat := 256
  const EVP_MAX_MD_SIZE: nat := 64
  const TLS1_0: nat := 0x301

  // ----- branching meaning

  /** What the cipher layer reports for one decrypted record. */
  datatype Unpadded =
    | Outside                                 // octets outside the record are read: no promise
    | TooSmall                                // CKR_BUFFER_TOO_SMALL, no length
    | NoRandom                                // CKR_GENERAL_ERROR, no length
    | Rejected(len: nat)                      // CKR_GENERAL_ERROR with a length
    | Accepted(len: nat, mac: seq<byte>)      // CKR_OK

  /** The record without its explicit IV, which TLS 1.0 does not have. */
  function Body(record: seq<byte>, version: nat): seq<byte>
    requires |record| >= AESBLOCK
  {
    if version != TLS1_0 then record[AESBLOCK..] else record
  }

  predicate LengthFits(body: seq<byte>, macSize: nat, pad: byte) {
    macSize + 1 + pad <= |body|
  }

  /** Each of the pad octets before the last one repeats the padding length. */
  predicate PaddingMatches(body: seq<byte>, pad: byte)
    requires pad < |body|
  {
    forall k :: |body| - 1 - pad <= k < |body| - 1 ==> body[k] == pad
  }

  function ContentLength(body: seq<byte>, macSize: nat, pad: byte): (n: int)
    requires macSize <= |body|
    ensures 0 <= n <= |body| - macSize
  {
    if LengthFits(body, macSize, pad) then |body| - macSize - pad - 1 else |body| - macSize
  }

  function Unpad(record: seq<byte>, version: nat, macSize: nat, random: seq<byte>): Unpadded
    requires macSize <= |random|
  {
    if |record| < AESBLOCK then Outside
    else UnpadBody(Body(record, version), record[|record| - 1], macSize, random)
  }

  function UnpadBody(body: seq<byte>, pad: byte, macSize: nat, random: seq<byte>): Unpadded
    requires macSize <= |random|
  {
    if |body| < macSize + 1 then TooSmall
    else
      var n := ContentLength(body, macSize, pad);
      if LengthFits(body, macSize, pad) then Accepted(n, body[n..n + macSize])
      else if macSize > 0 then Accepted(n, random[..macSize])
      else Rejected(n)
  }

  // ----- which octets are read, in C's arithmetic

  function BodyLength(inlen: ulong, version: nat): ulong {
    if version != TLS1_0 then Wrap64(inlen - AESBLOCK) else inlen
  }

  function BodyStart(version: nat): nat { if version != TLS1_0 then AESBLOCK else 0 }

  /** How far the scan looks, and where the search for the MAC starts. */
  function MaxCheck(olen: ulong): nat { if MAX_PADDING > olen then olen else MAX_PADDING }

  function MacArea(olen: ulong, macSize: nat): nat {
    if olen > macSize + 256 then olen - macSize - 256 else 0
  }

  /** Where turn i of the scan, and of the search for the MAC, reads. */
  function ScanIndex(inlen: ulong, version: nat, i: nat): ulong {
    Wrap64(BodyStart(version) + Wrap64(BodyLength(inlen, version) - i - 2))
  }

  function MacIndex(version: nat, i: nat): ulong { Wrap64(BodyStart(version) + i) }

  /** tlsunpad reads the octet at this distance from the start of a record of inlen octets:
      the padding length, an octet of the scan, or one where the MAC may be. */
  ghost predicate Reads(inlen: ulong, version: nat, macSize: nat, at: ulong) {
    var olen := BodyLength(inlen, version);
    || at == Wrap64(inlen - 1)
    || (olen >= macSize + 1 && exists i: nat :: i < MaxCheck(olen) - 1 && at == ScanIndex(inlen, version, i))
    || (olen >= macSize + 1 && macSize > 0
        && exists i: nat :: MacArea(olen, macSize) <= i < olen && at == MacIndex(version, i))
  }

  /** All octets read lie in the record exactly when it is not empty. */
  lemma ReadsStayInsideExactlyWhen(inlen: ulong, version: nat, macSize: nat)
    requires inlen % AESBLOCK == 0 && macSize <= EVP_MAX_MD_SIZE
    ensures (forall at: ulong :: Reads(inlen, version, macSize, at) ==> at < inlen) <==> inlen > 0
  {
    if inlen == 0 {
      assert Reads(inlen, version, macSize, ALL_ONES);
    } else {
      forall at: ulong | Reads(inlen, version, macSize, at) ensures at < inlen {
        ReadInside(inlen, version, macSize, at);
      }
    }
  }

  lemma IndicesInside(inlen: ulong, version: nat, i: nat)
    requires inlen >= AESBLOCK
    ensures BodyLength(inlen, version) + BodyStart(version) == inlen
    ensures i + 2 <= BodyLength(inlen, version) ==> ScanIndex(inlen, version, i) == inlen - i - 2
    ensures i < BodyLength(inlen, version) ==> MacIndex(version, i) == BodyStart(version) + i
  {
    WrapNear(inlen - AESBLOCK);
    var olen, start := BodyLength(inlen, version), BodyStart(version);
    if i + 2 <= olen {
      WrapNear(olen - i - 2);
      WrapNear(start + olen - i - 2);
    }
    if i < olen { WrapNear(start + i); }
  }

  lemma ReadInside(inlen: ulong, version: nat, macSize: nat, at: ulong)
    requires inlen >= AESBLOCK && Reads(inlen, version, macSize, at)
    ensures at < inlen
  {
    var olen := BodyLength(inlen, version);
    IndicesInside(inlen, version, 0);
    if at == Wrap64(inlen - 1) {
      WrapNear(inlen - 1);
    } else if i: nat :| i < MaxCheck(olen) - 1 && at == ScanIndex(inlen, version, i) {
      IndicesInside(inlen, version, i);
    } else {
      var i: nat :| MacArea(olen, macSize) <= i < olen && at == MacIndex(version, i);
      IndicesInside(inlen, version, i);
    }
  }

  /** Of an empty record the length octet is looked for before its start; where there should
      be an explicit IV, the length wraps around, and scan and MAC search go on before it. */
  lemma EmptyRecordReads(version: nat, macSize: nat)
    requires version != TLS1_0 && 0 < macSize <= EVP_MAX_MD_SIZE
    ensures BodyLength(0, version) == TWO_64 - 16
    ensures Reads(0, version, macSize, ALL_ONES) && Reads(0, version, macSize, TWO_64 - 256)
    ensures Reads(0, version, macSize, TWO_64 - 256 - macSize)
  {
    var olen := BodyLength(0, version);
    var i := olen - macSize - 256;
    assert MaxCheck(olen) == 256 && MacArea(olen, macSize) == i;
    assert TWO_64 - 256 == ScanIndex(0, version, 254);
    assert TWO_64 - 256 - macSize == MacIndex(version, i);
  }

  // ----- the padding scan

  /** One narrowing of the pass mask by an octet's difference. */
  lemma ScanStep(pass: ulong, diff: byte)
    requires pass == 0 || pass / 256 == HIGH_56
    ensures And(pass, Not64(diff)) < TWO_64
    ensures pass == 0 ==> And(pass, Not64(diff)) == 0
    ensures pass != 0 ==> And(pass, Not64(diff)) / 256 == HIGH_56
    ensures And(pass, Not64(diff)) % 256 == 255 <==> pass % 256 == 255 && diff == 0
  {
    OpRange64(pass, Not64(diff));
    AndOctet(pass, Not64(diff));
    NotOctet(diff);
    AndHigh56();
    AndFull(pass % 256, 255 - diff);
  }

  lemma AndFull(a: byte, b: byte)
    ensures And(a, b) == 255 <==> a == 255 && b == 255
  {
    AndLe(a, b);
    And8(b);
  }

  /** One turn of the scan: octet i from the end counts only inside the padding. */
  function Narrow(pass: ulong, i: nat, pad: byte, data: byte): ulong
    requires i < 256
  {
    var mask := ToByte(SmallerMask(i, pad));
    OpRange8(pad, data);
    OpRange8(mask, Xor(pad, data));
    OpRange64(pass, Not64(And(mask, Xor(pad, data))));
    And(pass, Not64(And(mask, Xor(pad, data))))
  }

  lemma NarrowMeaning(pass: ulong, i: nat, pad: byte, data: byte)
    requires i < 256
    requires pass == 0 || pass / 256 == HIGH_56
    ensures pass == 0 ==> Narrow(pass, i, pad, data) == 0
    ensures pass != 0 ==> Narrow(pass, i, pad, data) / 256 == HIGH_56
    ensures Narrow(pass, i, pad, data) % 256 == 255 <==> pass % 256 == 255 && (i < pad ==> data == pad)
  {
    SmallerMaskMeaning(i, pad);
    assert ToByte(ALL_ONES) == 255;
    OpRange8(pad, data);
    And8(Xor(pad, data));
    XorZero(pad, data);
    ScanStep(pass, if i < pad then Xor(pad, data) else 0);
  }

  /** Of the i octets before the last one, those inside the padding repeat its length. */
  predicate Scanned(body: seq<byte>, pad: byte, i: nat)
    requires i < |body|
  {
    forall k :: |body| - 1 - i <= k < |body| - 1 && |body| - 1 - pad <= k ==> body[k] == pad
  }

  lemma ScannedNext(body: seq<byte>, pad: byte, i: nat)
    requires i + 1 < |body|
    ensures Scanned(body, pad, i + 1) <==> Scanned(body, pad, i) && (i < pad ==> body[|body| - i - 2] == pad)
  {
  }

  /** The pass mask after i turns of the scan. */
  ghost predicate Scans(pass: ulong, overhead: nat, body: seq<byte>, pad: byte, i: nat)
    requires 1 <= overhead && i < |body|
  {
    var fits := LengthFits(body, overhead - 1, pad);
    && (if fits then pass / 256 == HIGH_56 else pass == 0)
    && (pass % 256 == 255 <==> fits && Scanned(body, pad, i))
  }

  lemma ScanStart(overhead: nat, body: seq<byte>, pad: byte)
    requires 1 <= overhead <= |body| < TWO_63
    ensures Scans(LengthMask(|body|, overhead, pad), overhead, body, pad, 0)
  {
  }

  lemma ScanTurn(pass: ulong, overhead: nat, body: seq<byte>, pad: byte, i: nat)
    requires 1 <= overhead && i + 1 < |body| && i < 256 && Scans(pass, overhead, body, pad, i)
    ensures Scans(Narrow(pass, i, pad, body[|body| - i - 2]), overhead, body, pad, i + 1)
  {
    NarrowMeaning(pass, i, pad, body[|body| - i - 2]);
    ScannedNext(body, pad, i);
  }

  lemma ScanEnd(pass: ulong, overhead: nat, body: seq<byte>, pad: byte, i: nat)
    requires 1 <= overhead && i < |body| && Scans(pass, overhead, body, pad, i)
    requires i == |body| - 1 || i == MAX_PADDING - 1
    ensures pass % 256 == 255 <==> LengthFits(body, overhead - 1, pad) && PaddingMatches(body, pad)
    ensures if LengthFits(body, overhead - 1, pad) then pass / 256 == HIGH_56 else pass == 0
  {
    if LengthFits(body, overhead - 1, pad) { ScanComplete(body, pad, i); }
  }

  /** The scan loop. Before it is renormalised, the low octet of the pass mask is the
      verdict on the whole padding; every index stays inside the record. */
  method ScanPadding(out: array<byte>, off: nat, olen: ulong, overhead: ulong, pad: byte)
    returns (pass: ulong)
    requires off + olen <= out.Length && 1 <= overhead <= olen < TWO_63
    requires pad == out[off + olen - 1]
    ensures ghost var body := out[off..off + olen];
            pass % 256 == 255 <==> LengthFits(body, overhead - 1, pad) && PaddingMatches(body, pad)
    ensures if LengthFits(out[off..off + olen], overhead - 1, pad) then pass / 256 == HIGH_56 else pass == 0
  {
    ghost var body := out[off..off + olen];
    var maxcheck := MAX_PADDING;
    if maxcheck > olen {
      maxcheck := olen;
    }
    pass := LengthMask(olen, overhead, pad);
    ScanStart(overhead, body, pad);
    var i := 0;
    while i < maxcheck - 1
      invariant 0 <= i <= maxcheck - 1
      invariant Scans(pass, overhead, body, pad, i)
    {
      var data := out[off + olen - i - 2];
      ScanTurn(pass, overhead, body, pad, i);
      pass := Narrow(pass, i, pad, data);
      i := i + 1;
    }
    ScanEnd(pass, overhead, body, pad, i);
  }

  lemma ScanComplete(body: seq<byte>, pad: byte, i: nat)
    requires pad < |body| && i < |body| && (i == |body| - 1 || i == MAX_PADDING - 1)
    ensures Scanned(body, pad, i) <==> PaddingMatches(body, pad)
  {
  }

  /** All ones when padding, its length octet and the MAC fit in the record, else zero. */
  function LengthMask(olen: ulong, overhead: ulong, pad: byte): (pass: ulong)
    requires overhead <= olen < TWO_63
    ensures pass == if overhead + pad <= olen then ALL_ONES else 0
  {
    SmallerMaskMeaning(olen, Wrap64(overhead + pad));
    WrapNear(overhead + pad);
    Not64(SmallerMask(olen, Wrap64(overhead + pad)))
  }

  /** Comparing the scanned mask with 0xff keeps only the length test. */
  lemma Renormalised(pass: ulong)
    requires pass == 0 || pass / 256 == HIGH_56
    ensures EqualMask(pass, 255) == if pass == 0 then 0 else ALL_ONES
  {
    if pass == 0 {
      assert Xor(0, 255) == 255;
      EqualValue(0, 255);
    } else {
      XorHigh(pass);
      EqualValue(pass, 255);
    }
  }

  // ----- the MAC copy

  /** Of the whole area scanned, one octet is copied to each position of the MAC. */
  lemma MacMask(i: nat, j: nat, macPos: nat, macSize: nat)
    requires j < macSize && i < TWO_63 && macPos + macSize < TWO_63
    ensures And(And(Not64(SmallerMask(i, macPos)), SmallerMask(i, macPos + macSize)),
                EqualMask(i, j + macPos)) == if i == j + macPos then ALL_ONES else 0
    ensures And(Not64(SmallerMask(i, macPos)), SmallerMask(i, macPos + macSize)) < TWO_64
  {
    SmallerMaskMeaning(i, macPos);
    SmallerMaskMeaning(i, macPos + macSize);
    EqualBelowTop(i, j + macPos);
    MaskAnd(SmallerMask(i, macPos), SmallerMask(i, macPos + macSize), EqualMask(i, j + macPos));
  }

  /** On masks the bitwise operators are the logical ones. */
  lemma MaskAnd(x: ulong, y: ulong, z: ulong)
    requires x in {0, ALL_ONES} && y in {0, ALL_ONES} && z in {0, ALL_ONES}
    ensures And(Not64(x), y) == if x == 0 && y != 0 then ALL_ONES else 0
    ensures And(And(Not64(x), y), z) == if x == 0 && y != 0 && z != 0 then ALL_ONES else 0
  {
    And64(ALL_ONES);
    And64(0);
  }

  /** tlsmac[j] |= out[i] & mask. */
  function Collect(mac: byte, data: byte, i: nat, j: nat, macPos: nat, macSize: nat): byte
    requires j < macSize && i < TWO_63 && macPos + macSize < TWO_63
  {
    MacMask(i, j, macPos, macSize);
    var mask := ToByte(And(And(Not64(SmallerMask(i, macPos)), SmallerMask(i, macPos + macSize)),
                           EqualMask(i, j + macPos)));
    OpRange8(data, mask);
    OpRange8(mac, And(data, mask));
    Or(mac, And(data, mask))
  }

  lemma CollectMeaning(mac: byte, data: byte, i: nat, j: nat, macPos: nat, macSize: nat)
    requires j < macSize && i < TWO_63 && macPos + macSize < TWO_63
    ensures i != j + macPos ==> Collect(mac, data, i, j, macPos, macSize) == mac
    ensures i == j + macPos && mac == 0 ==> Collect(mac, data, i, j, macPos, macSize) == data
  {
    MacMask(i, j, macPos, macSize);
    And8(data);
    assert And(data, 0) == 0;
  }

  method ExtractMac(out: array<byte>, off: nat, olen: nat, macPos: nat, pass: ulong,
                    randmac: seq<byte>, tlsmac: array<byte>)
    requires off + olen <= out.Length && olen < TWO_63 && tlsmac != out
    requires macPos + tlsmac.Length <= olen <= macPos + tlsmac.Length + 256
    requires tlsmac.Length <= |randmac|
    requires pass == 0 || pass == ALL_ONES
    requires forall j :: 0 <= j < tlsmac.Length ==> tlsmac[j] == 0
    modifies tlsmac
    ensures tlsmac[..] == if pass == 0 then randmac[..tlsmac.Length]
                          else out[off + macPos..off + macPos + tlsmac.Length]
  {
    var macSize := tlsmac.Length;
    var i := if olen > macSize + 256 then olen - macSize - 256 else 0;
    while i < olen
      invariant 0 <= i <= olen
      invariant forall j :: 0 <= j < macSize ==>
        tlsmac[j] == if macPos + j < i then out[off + macPos + j] else 0
    {
      var j := 0;
      while j < macSize
        invariant 0 <= j <= macSize
        invariant forall k :: 0 <= k < macSize ==>
          tlsmac[k] == if macPos + k < (if k < j then i + 1 else i) then out[off + macPos + k] else 0
      {
        CollectMeaning(tlsmac[j], out[off + i], i, j, macPos, macSize);
        tlsmac[j] := Collect(tlsmac[j], out[off + i], i, j, macPos, macSize);
        j := j + 1;
      }
      i := i + 1;
    }
    // on depadding failure the MAC is overwritten with random octets
    var k := 0;
    while k < macSize
      invariant 0 <= k <= macSize
      invariant forall j :: 0 <= j < k ==>
        tlsmac[j] == if pass == 0 then randmac[j] else out[off + macPos + j]
      invariant forall j :: k <= j < macSize ==> tlsmac[j] == out[off + macPos + j]
    {
      SelectByteMaskMeaning(tlsmac[k], randmac[k], ToByte(pass));
      tlsmac[k] := SelectByteMask(tlsmac[k], randmac[k], ToByte(pass));
      k := k + 1;
    }
  }

  // ----- padding on encryption, and the round trip

  function PadSize(n: nat): (p: nat)
    ensures 1 <= p <= AESBLOCK && (n + p) % AESBLOCK == 0
  {
    AESBLOCK - n % AESBLOCK
  }

  function Padding(p: nat): (s: seq<byte>)
    requires 1 <= p <= AESBLOCK
    ensures |s| == p && forall k :: 0 <= k < p ==> s[k] == p - 1
  {
    seq(p, _ => p - 1)
  }

  /** The record that is encrypted: the data and its padding octets. */
  function Pad(data: seq<byte>): (record: seq<byte>) {
    data + Padding(PadSize(|data|))
  }

  // ----- what a record is made of

  /** A record behind its explicit IV as content, MAC and a tail that ends with its length. */
  ghost predicate MadeOf(body: seq<byte>, content: seq<byte>, mac: seq<byte>, tail: seq<byte>) {
    tail != [] && body == content + mac + tail && tail[|tail| - 1] == |tail| - 1
  }

  /** A record that can be taken apart at the length its last octet gives is accepted with the
      content's length and the MAC. */
  lemma TakenApart(record: seq<byte>, version: nat, random: seq<byte>,
                   content: seq<byte>, mac: seq<byte>, tail: seq<byte>)
    requires |record| >= AESBLOCK && |mac| <= |random|
    requires MadeOf(if version == TLS1_0 then record else record[AESBLOCK..], content, mac, tail)
    ensures Unpad(record, version, |mac|, random) == Accepted(|content|, mac)
  {
    var body := if version == TLS1_0 then record else record[AESBLOCK..];
    assert record[|record| - 1] == body[|body| - 1] == |tail| - 1;
    assert body[|content|..|content| + |mac|] == mac;
  }

  /** One that cannot is refused, or given a random MAC of the right length if there is to be
      one: then all but the last octets, as many as the MAC has, count as content. */
  lemma NotTakenApart(record: seq<byte>, body: seq<byte>, version: nat, macSize: nat, random: seq<byte>)
    requires |record| >= AESBLOCK && macSize <= |random|
    requires body == if version == TLS1_0 then record else record[AESBLOCK..]
    requires forall content, mac, tail :: MadeOf(body, content, mac, tail) ==> |mac| != macSize
    ensures var n := |body| - macSize;
      Unpad(record, version, macSize, random) ==
        if n <= 0 then TooSmall else if macSize > 0 then Accepted(n, random[..macSize]) else Rejected(n)
  {
    if |body| > macSize {
      assert body[|body| - 1] == record[|record| - 1];
      if macSize + 1 + body[|body| - 1] <= |body| {
        var content, mac, tail := TakeApart(body, macSize);
      }
    }
  }

  lemma TakeApart(body: seq<byte>, macSize: nat) returns (content: seq<byte>, mac: seq<byte>, tail: seq<byte>)
    requires |body| > macSize && macSize + 1 + body[|body| - 1] <= |body|
    ensures MadeOf(body, content, mac, tail) && |mac| == macSize
  {
    var n := |body| - macSize - body[|body| - 1] - 1;
    content, mac, tail := body[..n], body[n..n + macSize], body[n + macSize..];
  }

  /** The padding octets together with their length are so many octets of that value. */
  lemma PaddingMeaning(body: seq<byte>, pad: byte)
    requires pad < |body| && body[|body| - 1] == pad
    ensures PaddingMatches(body, pad) <==> body[|body| - 1 - pad..] == seq(pad + 1, _ => pad)
  {
    var tail := body[|body| - 1 - pad..];
    assert forall k :: 0 <= k < pad + 1 ==> tail[k] == body[|body| - 1 - pad + k];
    if tail == seq(pad + 1, _ => pad) {
      forall k | |body| - 1 - pad <= k < |body| - 1 ensures body[k] == pad {
        assert body[k] == tail[k - (|body| - 1 - pad)];
      }
    }
  }

  /** What the padding and MAC part of section 6.2.3.2 of RFC 5246 asks for: also the
      padding octets are checked. */
  function StrictUnpad(record: seq<byte>, version: nat, macSize: nat, random: seq<byte>): Unpadded
    requires |record| >= AESBLOCK
    requires macSize <= |random|
  {
    StrictUnpadBody(Body(record, version), record[|record| - 1], macSize, random)
  }

  function StrictUnpadBody(body: seq<byte>, pad: byte, macSize: nat, random: seq<byte>): Unpadded
    requires macSize <= |random|
  {
    if |body| < macSize + 1 then TooSmall
    else if LengthFits(body, macSize, pad) && PaddingMatches(body, pad) then
      var n := |body| - macSize - pad - 1;
      Accepted(n, body[n..n + macSize])
    else if macSize > 0 then Accepted(|body| - macSize, random[..macSize])
    else Rejected(|body|)
  }

  /** The code agrees with the strict reading exactly when the padding that fits is
      also well formed. */
  lemma UnpadIsStrictExactlyWhen(record: seq<byte>, version: nat, macSize: nat, random: seq<byte>)
    requires |record| >= AESBLOCK && macSize <= |random|
    ensures var body, pad := Body(record, version), record[|record| - 1];
      Unpad(record, version, macSize, random) == StrictUnpad(record, version, macSize, random)
      <==> (LengthFits(body, macSize, pad) ==> PaddingMatches(body, pad))
  {
    var body, pad := Body(record, version), record[|record| - 1];
    if LengthFits(body, macSize, pad) && !PaddingMatches(body, pad) {
      assert ContentLength(body, macSize, pad) != |body| - macSize;
    }
  }

  /** A record whose padding does not repeat its length is still taken as padded. */
  lemma MalformedPaddingIsTaken()
    ensures var record: seq<byte> := seq(15, _ => 0) + [3];
      Unpad(record, TLS1_0, 0, []) == Accepted(12, [])
      && StrictUnpad(record, TLS1_0, 0, []) == Rejected(16)
  {
    var record: seq<byte> := seq(15, _ => 0) + [3];
    assert record[14] == 0 && record[15] == 3;
    assert Body(record, TLS1_0) == record;
    assert !PaddingMatches(record, 3);
  }

  /** Decrypting and unpadding what was padded and encrypted gives back the length of
      the content, without the explicit IV of TLS 1.1 and 1.2, and the MAC. */
  lemma PadThenUnpad(iv: seq<byte>, content: seq<byte>, mac: seq<byte>, version: nat, random: seq<byte>)
    requires if version == TLS1_0 then iv == [] else |iv| == AESBLOCK
    requires |mac| <= |random|
    ensures var record := Pad(iv + content + mac);
      && |record| >= AESBLOCK && |record| % AESBLOCK == 0
      && Unpad(record, version, |mac|, random) == Accepted(|content|, mac)
      && StrictUnpad(record, version, |mac|, random) == Accepted(|content|, mac)
  {
    var data := iv + content + mac;
    assert data == iv + (content + mac);
    PaddedBody(iv, content + mac, version);
    RecordUnpads(Pad(data), version, content, mac, PadSize(|data|), random);
  }

  lemma RecordUnpads(record: seq<byte>, version: nat, content: seq<byte>, mac: seq<byte>, p: nat, random: seq<byte>)
    requires |record| >= AESBLOCK && 1 <= p <= AESBLOCK && |mac| <= |random|
    requires Body(record, version) == content + mac + Padding(p) && record[|record| - 1] == p - 1
    ensures Unpad(record, version, |mac|, random) == Accepted(|content|, mac)
    ensures StrictUnpad(record, version, |mac|, random) == Accepted(|content|, mac)
  {
    UnpadParts(content, mac, p, random);
  }

  /** Without the explicit IV a padded record is its content, MAC and padding. */
  lemma PaddedBody(iv: seq<byte>, payload: seq<byte>, version: nat)
    requires if version == TLS1_0 then iv == [] else |iv| == AESBLOCK
    ensures var p, record := PadSize(|iv + payload|), Pad(iv + payload);
      && |record| == |iv| + |payload| + p >= AESBLOCK && |record| % AESBLOCK == 0
      && Body(record, version) == payload + Padding(p)
      && record[|record| - 1] == p - 1
  {
    var p := PadSize(|iv + payload|);
    var tail := Padding(p);
    assert Pad(iv + payload) == iv + (payload + tail);
    assert Pad(iv + payload)[|iv| + |payload| + p - 1] == tail[p - 1];
  }

  lemma UnpadParts(content: seq<byte>, mac: seq<byte>, p: nat, random: seq<byte>)
    requires 1 <= p <= AESBLOCK && |mac| <= |random|
    ensures var body := content + mac + Padding(p);
      UnpadBody(body, p - 1, |mac|, random) == Accepted(|content|, mac)
      && StrictUnpadBody(body, p - 1, |mac|, random) == Accepted(|content|, mac)
  {
    var body := content + mac + Padding(p);
    assert body[|content|..|content| + |mac|] == mac;
    TailMatches(content + mac, p);
  }

  lemma TailMatches(data: seq<byte>, p: nat)
    requires 1 <= p <= AESBLOCK
    ensures PaddingMatches(data + Padding(p), p - 1)
  {
    var tail := Padding(p);
    assert forall k :: |data| <= k < |data| + p ==> (data + tail)[k] == tail[k - |data|];
  }
}
