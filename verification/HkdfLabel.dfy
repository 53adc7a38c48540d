/** The HkdfLabel structure of TLS 1.3 key expansion (section 7.1 of RFC 8446). */
module HkdfLabel {
  import opened Common
  import opened Words

  const LABEL_MAX: nat := 255
  const CONTEXT_MAX: nat := 255
  const KEY_MAX: nat := 65535
  const HKDF_LABEL_MAX_SIZE: nat := 2 + 1 + 255 + 1 + 255

  /** What the structure stands for: a length, a label and a context. */
  datatype Label = Label(length: nat, text: seq<byte>, context: seq<byte>)
  {
    predicate Valid() { length <= KEY_MAX && |text| <= LABEL_MAX && |context| <= CONTEXT_MAX }
  }

  /** uint16 length, opaque label<0..255>, opaque context<0..255>. */
  function Encode(l: Label): (info: seq<byte>)
    requires l.Valid()
    ensures |info| == 4 + |l.text| + |l.context| <= HKDF_LABEL_MAX_SIZE
  {
    [l.length / 256, l.length % 256] + [|l.text|] + l.text + [|l.context|] + l.context
  }

  /** Reads a structure that takes up the whole input. */
  function Decode(info: seq<byte>): Option<Label> {
    if |info| < 3 then None
    else
      var n: nat := info[2];
      if |info| < 4 + n then None
      else
        var m: nat := info[3 + n];
        if |info| != 4 + n + m then None
        else Some(Label((info[0] as nat) * 256 + info[1], info[3..3 + n], info[4 + n..]))
  }

  /** The layout: the length in two octets, the higher one first, and each text behind an octet
      with its length. */
  lemma EncodeLayout(l: Label)
    requires l.Valid()
    ensures var info, n := Encode(l), |l.text|;
      && |info| == 4 + n + |l.context|
      && (info[0] as nat) * 256 + info[1] == l.length && info[2] == n && info[3..3 + n] == l.text
      && info[3 + n] == |l.context| && info[4 + n..] == l.context
  {
    DecodeEncode(l);
  }

  lemma DecodeEncode(l: Label)
    requires l.Valid()
    ensures Decode(Encode(l)) == Some(l)
  {
    var info := Encode(l);
    var n := |l.text|;
    assert info[0] == l.length / 256 && info[1] == l.length % 256 && info[2] == n;
    assert info[3 + n] == |l.context|;
    assert info[3..3 + n] == l.text;
    assert info[4 + n..] == l.context;
  }

  lemma EncodeDecode(info: seq<byte>)
    requires Decode(info).Some?
    ensures Decode(info).value.Valid() && Encode(Decode(info).value) == info
  {
    var l := Decode(info).value;
    var n := info[2];
    assert l.length / 256 == info[0] && l.length % 256 == info[1];
    assert info == info[..3] + info[3..3 + n] + [info[3 + n]] + info[4 + n..];
  }

  /** Different requests expand with different labels. */
  lemma EncodeInjective(a: Label, b: Label)
    requires a.Valid() && b.Valid()
    ensures Encode(a) == Encode(b) <==> a == b
  {
    DecodeEncode(a);
    DecodeEncode(b);
  }

  // ----- the encoder

  datatype Outcome = Derive(info: seq<byte>) | ArgumentsBad | LengthMismatch

  /** Writes data at the running index. */
  method Append(info: array<byte>, i: nat, data: seq<byte>) returns (next: nat)
    requires i + |data| <= info.Length
    modifies info
    ensures next == i + |data| && info[..next] == old(info[..i]) + data
  {
    forall k | 0 <= k < |data| { info[i + k] := data[k]; }
    next := i + |data|;
  }

  /** p11prov_tls13_expand_label up to the derivation: a running index fills the buffer,
      never past its end, and the check of the final length never fires. */
  method ExpandLabel(prefix: Option<seq<byte>>, text: Option<seq<byte>>, context: Option<seq<byte>>, keylen: nat)
    returns (r: Outcome)
    ensures r != LengthMismatch
    ensures r.Derive? <==>
      && prefix.Some? && prefix.value != [] && text.Some? && text.value != []
      && |prefix.value| + |text.value| <= 255
      && (context.Some? ==> 0 < |context.value| <= 255)
      && keylen <= 65535
    ensures r.Derive? ==>
      var l := Label(keylen, prefix.value + text.value, if context.Some? then context.value else []);
      l.Valid() && r.info == Encode(l)
  {
    var datalen := if context.Some? then |context.value| else 0;
    if prefix.None? || prefix.value == [] || text.None? || text.value == []
       || |prefix.value| + |text.value| > LABEL_MAX
       || (datalen == 0 && context.Some?) || datalen > CONTEXT_MAX || keylen > KEY_MAX {
      return ArgumentsBad;
    }
    var infoLen := 2 + 1 + |prefix.value| + |text.value| + 1 + datalen;
    if infoLen > HKDF_LABEL_MAX_SIZE { return ArgumentsBad; }
    var info := new byte[HKDF_LABEL_MAX_SIZE];
    var i := FillInfo(info, prefix.value, text.value, if context.Some? then context.value else [], keylen);
    if infoLen != i { return LengthMismatch; }
    r := Derive(info[..infoLen]);
  }

  /** The writes of the encoder, in order. */
  method FillInfo(info: array<byte>, prefix: seq<byte>, text: seq<byte>, context: seq<byte>, keylen: nat)
    returns (i: nat)
    requires Label(keylen, prefix + text, context).Valid() && info.Length == HKDF_LABEL_MAX_SIZE
    modifies info
    ensures i == 4 + |prefix| + |text| + |context|
    ensures info[..i] == Encode(Label(keylen, prefix + text, context))
  {
    EncodeInSteps(keylen, prefix, text, context);
    i := Append(info, 0, [keylen / 256, keylen % 256]);
    i := Append(info, i, [|prefix| + |text|]);
    i := Append(info, i, prefix);
    i := Append(info, i, text);
    i := Append(info, i, [|context|]);
    if |context| > 0 {
      i := Append(info, i, context);
    }
  }

  lemma EncodeInSteps(keylen: nat, prefix: seq<byte>, text: seq<byte>, context: seq<byte>)
    requires Label(keylen, prefix + text, context).Valid()
    ensures Encode(Label(keylen, prefix + text, context))
         == [] + [keylen / 256, keylen % 256] + [|prefix| + |text|] + prefix + text + [|context|] + context
    ensures context == [] ==>
      Encode(Label(keylen, prefix + text, context))
      == [] + [keylen / 256, keylen % 256] + [|prefix| + |text|] + prefix + text + [|context|]
  {
  }
}
