/** Percent-encoding of URI attribute values (section 2.1 of RFC 3986, section 2.3 of
    RFC 7512), as the provider writes and reads it. C characters are octets. */
module Percent {
  import opened Common

  type octet = c: char | c as int < 256 witness 'a'
  type octets = seq<octet>

  const NUL: octet := '\0'

  // ----- C strings

  function Strnlen(s: octets): (n: nat)
    ensures n <= |s|
    ensures forall i :: 0 <= i < n ==> s[i] != NUL
    ensures n < |s| ==> s[n] == NUL
  {
    if s == [] || s[0] == NUL then 0 else 1 + Strnlen(s[1..])
  }

  /** The text of a field or buffer: what precedes its first NUL. */
  function Text(s: octets): octets { s[..Strnlen(s)] }

  predicate NulFree(s: octets) { NUL !in s }

  lemma TextOfNulFree(s: octets)
    ensures NulFree(s) <==> Strnlen(s) == |s|
    ensures NulFree(Text(s))
    ensures NulFree(s) ==> Text(s) == s
  {
    if !NulFree(s) {
      var i :| 0 <= i < |s| && s[i] == NUL;
    }
  }

  // ----- hexadecimal digits

  function HexValue(c: octet): Option<nat> {
    if '0' <= c <= '9' then Some(c as int - '0' as int)
    else if 'a' <= c <= 'f' then Some(c as int - 'a' as int + 10)
    else if 'A' <= c <= 'F' then Some(c as int - 'A' as int + 10)
    else None
  }

  lemma HexValueBound(c: octet)
    ensures HexValue(c).Some? ==> HexValue(c).value < 16
  {
  }

  function HexDigit(n: nat): (c: octet)
    requires n < 16
    ensures HexValue(c) == Some(n)
  {
    if n < 10 then (n + '0' as int) as char else (n - 10 + 'A' as int) as char
  }

  /** hex_to_byte: (c[0] << 4) | c[1]. */
  function HexPair(hi: octet, lo: octet): Option<octet> {
    HexValueBound(hi);
    HexValueBound(lo);
    match (HexValue(hi), HexValue(lo))
    case (Some(h), Some(l)) => Some((16 * h + l) as char)
    case _ => None
  }

  // ----- writing

  /** Characters byte_to_hex never leaves as they are, even in text mode. */
  predicate MustEscape(c: octet) {
    c < '\'' || c == '/' || c == ';' || c == '?' || c > '~'
  }

  function EscapeOne(c: octet, bin: bool): octets {
    if bin || MustEscape(c) then ['%', HexDigit(c as int / 16), HexDigit(c as int % 16)] else [c]
  }

  function Escape(s: octets, bin: bool): octets
    decreases |s|
  {
    if s == [] then [] else Escape(s[..|s| - 1], bin) + EscapeOne(s[|s| - 1], bin)
  }

  // ----- reading

  /** Decodes up to the first NUL; None when a % lacks its two digits. */
  function Unescape(s: octets): Option<octets> {
    if s == [] || s[0] == NUL then Some([])
    else if s[0] == '%' then
      if |s| < 3 then None
      else
        match (HexPair(s[1], s[2]), Unescape(s[3..]))
        case (Some(b), Some(rest)) => Some([b] + rest)
        case _ => None
    else
      match Unescape(s[1..])
      case Some(rest) => Some([s[0]] + rest)
      case None => None
  }

  /** Every % before the first NUL has its two digits within the string. */
  predicate Wellformed(s: octets) {
    forall i :: 0 <= i < Strnlen(s) && s[i] == '%' ==> HexAt(s, i + 1) && HexAt(s, i + 2)
  }

  predicate HexAt(s: octets, i: nat) { i < |s| && HexValue(s[i]).Some? }

  // ----- laws

  lemma UnescapeOne(c: octet, bin: bool, rest: octets)
    requires Unescape(rest).Some?
    ensures Unescape(EscapeOne(c, bin) + rest) == Some([c] + Unescape(rest).value)
  {
    var e := EscapeOne(c, bin);
    assert (e + rest)[|e|..] == rest;
    assert c as int == 16 * (c as int / 16) + c as int % 16;
  }

  lemma {:induction false} UnescapeEscapeThen(s: octets, bin: bool, rest: octets)
    requires Unescape(rest).Some?
    ensures Unescape(Escape(s, bin) + rest) == Some(s + Unescape(rest).value)
    decreases |s|
  {
    if s == [] {
      assert Escape(s, bin) + rest == rest;
      assert s + Unescape(rest).value == Unescape(rest).value;
    } else {
      var init, c := s[..|s| - 1], s[|s| - 1];
      UnescapeOne(c, bin, rest);
      UnescapeEscapeThen(init, bin, EscapeOne(c, bin) + rest);
      Regroup(Escape(init, bin), EscapeOne(c, bin), rest);
      Regroup(init, [c], Unescape(rest).value);
      assert s == init + [c];
    }
  }

  /** Reading what was written gives back every octet string, in id and in text mode. */
  lemma UnescapeEscape(s: octets, bin: bool)
    ensures Unescape(Escape(s, bin)) == Some(s)
  {
    UnescapeEscapeThen(s, bin, []);
    assert Escape(s, bin) + [] == Escape(s, bin);
    assert s + [] == s;
  }

  /** Octets the URI grammar gives a meaning to, or that C ends a string at. */
  predicate Reserved(c: octet) { c == ';' || c == '?' || c == '&' || c == NUL || c == '/' }

  lemma {:induction false} EscapedIsPlain(s: octets, bin: bool)
    ensures forall i :: 0 <= i < |Escape(s, bin)| ==> !Reserved(Escape(s, bin)[i])
    ensures |s| <= |Escape(s, bin)| <= 3 * |s|
    ensures bin ==> |Escape(s, bin)| == 3 * |s|
    decreases |s|
  {
    if s != [] {
      EscapedIsPlain(s[..|s| - 1], bin);
      EscapedOneIsPlain(s[|s| - 1], bin);
    }
  }

  lemma EscapedOneIsPlain(c: octet, bin: bool)
    ensures forall i :: 0 <= i < |EscapeOne(c, bin)| ==> !Reserved(EscapeOne(c, bin)[i])
  {
    HexDigitIsPlain(c as int / 16);
    HexDigitIsPlain(c as int % 16);
  }

  lemma HexDigitIsPlain(n: nat)
    requires n < 16
    ensures !Reserved(HexDigit(n))
  {
  }

  lemma StrnlenIs(s: octets, n: nat)
    requires n <= |s| && (forall i :: 0 <= i < n ==> s[i] != NUL) && (n < |s| ==> s[n] == NUL)
    ensures Strnlen(s) == n
  {
  }

  lemma WellformedTail(s: octets, k: nat)
    requires k <= Strnlen(s)
    ensures Strnlen(s[k..]) == Strnlen(s) - k
    ensures Wellformed(s) ==> Wellformed(s[k..])
    ensures Wellformed(s[k..]) && (forall i :: 0 <= i < k && s[i] == '%' ==> HexAt(s, i + 1) && HexAt(s, i + 2))
      ==> Wellformed(s)
  {
    var t := s[k..];
    assert forall i :: 0 <= i < |t| ==> t[i] == s[i + k];
    StrnlenIs(t, Strnlen(s) - k);
    if Wellformed(s) {
      forall i | 0 <= i < Strnlen(t) && t[i] == '%' ensures HexAt(t, i + 1) && HexAt(t, i + 2) {
        assert s[i + k] == '%' && HexAt(s, i + k + 1) && HexAt(s, i + k + 2);
      }
    }
    if Wellformed(t) {
      forall i | k <= i < Strnlen(s) && s[i] == '%' ensures HexAt(s, i + 1) && HexAt(s, i + 2) {
        assert t[i - k] == '%' && HexAt(t, i - k + 1) && HexAt(t, i - k + 2);
      }
    }
  }

  lemma {:induction false} UnescapeFailsExactlyWhen(s: octets)
    ensures Unescape(s).Some? <==> Wellformed(s)
  {
    if s == [] || s[0] == NUL {
    } else if s[0] == '%' {
      if HexAt(s, 1) && HexAt(s, 2) {
        assert s[1] != NUL && s[2] != NUL && s[1] != '%' && s[2] != '%';
        assert forall i :: 0 <= i < 3 ==> s[i] != NUL;
        WellformedTail(s, 3);
        UnescapeFailsExactlyWhen(s[3..]);
      } else {
        assert Strnlen(s) > 0 && s[0] == '%';
      }
    } else {
      WellformedTail(s, 1);
      UnescapeFailsExactlyWhen(s[1..]);
    }
  }

  // ----- what the escaped form looks like

  const UPPER: octets := "0123456789ABCDEF"
  const LOWER: octets := "0123456789abcdef"

  /** The hexadecimal digits, in both cases, and their values. */
  lemma HexMeaning(c: octet, v: nat)
    ensures HexValue(c) == Some(v) <==> v < 16 && (c == UPPER[v] || c == LOWER[v])
  {
    if v < 16 {
      assert v < 10 ==> UPPER[v] == LOWER[v] == ('0' as int + v) as char;
      assert v >= 10 ==> UPPER[v] == ('A' as int + (v - 10)) as char && LOWER[v] == ('a' as int + (v - 10)) as char;
    }
  }

  /** The octets that stand for themselves in text mode: from the quote to the tilde, less the
      slash, the separator ; and the question mark. */
  predicate Unreserved(c: octet) { '\'' <= c <= '~' && c != '/' && c != ';' && c != '?' }

  /** In text mode exactly they are left as they are; all else, and in id mode everything, is a
      percent sign with two digits, in upper case. */
  lemma EscapeOneMeaning(c: octet, bin: bool)
    ensures EscapeOne(c, bin) == if Unreserved(c) && !bin then [c]
                                 else ['%', UPPER[c as int / 16], UPPER[c as int % 16]]
  {
    HexDigitIs(c as int / 16);
    HexDigitIs(c as int % 16);
  }

  lemma HexDigitIs(n: nat)
    requires n < 16
    ensures HexDigit(n) == UPPER[n]
  {
    assert n < 10 ==> UPPER[n] == ('0' as int + n) as char;
    assert n >= 10 ==> UPPER[n] == ('A' as int + (n - 10)) as char;
  }

  lemma EscapeConcat(s: octets, t: octets, bin: bool)
    ensures Escape(s + t, bin) == Escape(s, bin) + Escape(t, bin)
    decreases |t|
  {
    if t == [] {
      assert s + t == s;
    } else {
      assert (s + t)[..|s + t| - 1] == s + t[..|t| - 1];
      EscapeConcat(s, t[..|t| - 1], bin);
      Regroup(Escape(s, bin), Escape(t[..|t| - 1], bin), EscapeOne(t[|t| - 1], bin));
    }
  }

  predicate AllUnreserved(s: octets) { forall i :: 0 <= i < |s| ==> Unreserved(s[i]) }

  lemma {:induction false} EscapeLonger(s: octets)
    ensures |Escape(s, false)| >= |s|
    ensures |Escape(s, false)| == |s| <==> AllUnreserved(s)
    decreases |s|
  {
    if s != [] {
      EscapeLonger(s[..|s| - 1]);
      EscapeOneMeaning(s[|s| - 1], false);
      assert s == s[..|s| - 1] + [s[|s| - 1]];
    }
  }

  lemma {:induction false} EscapeUnreserved(s: octets)
    requires AllUnreserved(s)
    ensures Escape(s, false) == s
    decreases |s|
  {
    if s != [] {
      EscapeUnreserved(s[..|s| - 1]);
      EscapeOneMeaning(s[|s| - 1], false);
      assert s == s[..|s| - 1] + [s[|s| - 1]];
    }
  }

  /** Text is left as it is exactly when it has only such octets. */
  lemma EscapeLeavesExactlyWhen(s: octets)
    ensures Escape(s, false) == s <==> AllUnreserved(s)
  {
    EscapeLonger(s);
    if AllUnreserved(s) { EscapeUnreserved(s); }
  }

  /** Decoding stops at the first NUL. */
  lemma {:induction false} UnescapeStops(s: octets, rest: octets)
    ensures Unescape(s + [NUL] + rest) == Unescape(s + [NUL])
    decreases |s|
  {
    var a, b := s + [NUL] + rest, s + [NUL];
    if s != [] && s[0] != NUL {
      if s[0] != '%' {
        assert a[1..] == s[1..] + [NUL] + rest && b[1..] == s[1..] + [NUL];
        UnescapeStops(s[1..], rest);
      } else if |s| >= 3 {
        assert a[1] == b[1] == s[1] && a[2] == b[2] == s[2];
        assert a[3..] == s[3..] + [NUL] + rest && b[3..] == s[3..] + [NUL];
        UnescapeStops(s[3..], rest);
      } else {
        assert |a| >= 3 ==> a[|s|] == NUL;
        assert |b| >= 3 ==> b[|s|] == NUL;
      }
    }
  }

  // ----- the loop of the source

  function Prepend(done: octets, rest: Option<octets>): Option<octets> {
    match rest
    case Some(r) => Some(done + r)
    case None => None
  }

  /** What is decoded so far and what is left make up the whole. */
  ghost predicate Decoding(whole: octets, at: nat, done: octets)
    requires at <= |whole|
  {
    Unescape(whole) == Prepend(done, Unescape(whole[at..]))
  }

  lemma DecodePlain(whole: octets, at: nat, done: octets)
    requires at < |whole| && whole[at] != NUL && whole[at] != '%'
    requires Decoding(whole, at, done)
    ensures Decoding(whole, at + 1, done + [whole[at]])
  {
    var s := whole[at..];
    assert s[1..] == whole[at + 1..];
    if Unescape(s[1..]).Some? { Regroup(done, [s[0]], Unescape(s[1..]).value); }
  }

  lemma DecodeEscape(whole: octets, at: nat, done: octets)
    requires at < |whole| && whole[at] == '%'
    requires Decoding(whole, at, done)
    ensures |whole| - at < 3 ==> Unescape(whole).None?
    ensures |whole| - at >= 3 ==>
      match HexPair(whole[at + 1], whole[at + 2])
      case Some(b) => Decoding(whole, at + 3, done + [b])
      case None => Unescape(whole).None?
  {
    var s := whole[at..];
    if |s| >= 3 {
      assert s[3..] == whole[at + 3..];
      var b := HexPair(s[1], s[2]);
      if b.Some? && Unescape(s[3..]).Some? { Regroup(done, [b.value], Unescape(s[3..]).value); }
    }
  }

  /** parse_attr: decodes str[..len] into a buffer of len + 1 octets, NUL-terminated. */
  method ParseAttr(str: octets, len: nat) returns (out: array<octet>, outlen: nat, ok: bool)
    requires len <= |str|
    ensures ok <==> Unescape(str[..len]).Some?
    ensures fresh(out) && out.Length == len + 1
    ensures ok ==> outlen <= len && out[..outlen] == Unescape(str[..len]).value && out[outlen] == NUL
  {
    out := new octet[len + 1](_ => NUL);
    var at, left, index := 0, len, 0;
    ghost var whole := str[..len];
    assert whole[0..] == whole;
    assert Decoding(whole, 0, out[..0]) by {
      if Unescape(whole).Some? { assert out[..0] + Unescape(whole).value == Unescape(whole).value; }
    }
    while left > 0 && str[at] != NUL
      invariant at + left == len && index <= at
      invariant Decoding(whole, at, out[..index])
      decreases left
    {
      ghost var before := out[..index];
      if str[at] == '%' {
        DecodeEscape(whole, at, before);
        if left < 3 { return out, 0, false; }
        var b := HexPair(str[at + 1], str[at + 2]);
        if b.None? { return out, 0, false; }
        out[index] := b.value;
        at, left := at + 3, left - 3;
      } else {
        DecodePlain(whole, at, before);
        out[index] := str[at];
        at, left := at + 1, left - 1;
      }
      assert out[..index + 1] == before + [out[index]];
      index := index + 1;
    }
    assert Unescape(whole[at..]) == Some([]);
    assert out[..index] + [] == out[..index];
    out[index] := NUL;
    outlen, ok := index, true;
  }
}
