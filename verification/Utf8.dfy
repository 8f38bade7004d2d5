// String literals (src/kernel.cpp): the decoder against the UTF-8 encoding of RFC 3629, section 3.
module Utf8 {
  import opened Names
  import opened Terms
  import opened Conversion
  import L = Levels

  predicate CodePoint(c: nat) { c < 0x110000 }

  /** One to four octets, the leading one telling how many. */
  function Encode(c: nat): seq<nat>
    requires CodePoint(c)
  {
    if c < 0x80 then [c]
    else if c < 0x800 then [0xC0 + c / 0x40, 0x80 + c % 0x40]
    else if c < 0x10000 then [0xE0 + c / 0x1000, 0x80 + c / 0x40 % 0x40, 0x80 + c % 0x40]
    else [0xF0 + c / 0x40000, 0x80 + c / 0x1000 % 0x40, 0x80 + c / 0x40 % 0x40, 0x80 + c % 0x40]
  }

  function EncodeAll(cs: seq<nat>): seq<nat>
    requires forall k :: 0 <= k < |cs| ==> CodePoint(cs[k])
  {
    if cs == [] then [] else Encode(cs[0]) + EncodeAll(cs[1..])
  }

  /** What the leading octet holds of c. */
  function Lead(c: nat): nat {
    if c < 0x80 then c else if c < 0x800 then c / 0x40 else if c < 0x10000 then c / 0x1000 else c / 0x40000
  }

  lemma Digits(c: nat)
    ensures c == c / 0x40 * 0x40 + c % 0x40
    ensures c / 0x40 == c / 0x1000 * 0x40 + c / 0x40 % 0x40
    ensures c / 0x1000 == c / 0x40000 * 0x40 + c / 0x1000 % 0x40
  {
  }

  lemma Continues(p: nat, e: seq<nat>)
    ensures e == [] ==> Continue(p, e) == p
    ensures e != [] ==> Continue(p, e) == Continue(p * 64 + e[0] % 64, e[1..])
  {
  }

  lemma OctetDigit(d: nat)
    requires d < 0x40
    ensures (0x80 + d) % 64 == d
  {
  }

  /** The continuation octets of an encoded code point give it back from what the leading one holds. */
  lemma TailDecodes(c: nat)
    requires CodePoint(c)
    ensures Continue(Lead(c), Encode(c)[1..]) == c
  {
    hide Continue;
    Digits(c);
    OctetDigit(c % 0x40);
    OctetDigit(c / 0x40 % 0x40);
    OctetDigit(c / 0x1000 % 0x40);
    var e := Encode(c)[1..];
    Continues(Lead(c), e);
    if e != [] {
      var p := Lead(c) * 64 + e[0] % 64;
      var f := e[1..];
      Continues(p, f);
      if f != [] {
        var q := p * 64 + f[0] % 64;
        Continues(q, f[1..]);
        if f[1..] != [] { Continues(q * 64 + f[1] % 64, f[1..][1..]); }
      }
    }
  }

  /** The leading octet tells the length and holds the rest of its bits. */
  lemma LeadBits(c: nat)
    requires CodePoint(c)
    ensures var b := Encode(c)[0];
      if b < 128 then |Encode(c)| == 1 && b == Lead(c)
      else if b / 32 == 6 then |Encode(c)| == 2 && b % 32 == Lead(c)
      else if b / 16 == 14 then |Encode(c)| == 3 && b % 16 == Lead(c)
      else |Encode(c)| == 4 && b % 8 == Lead(c)
  {
  }

  /** Decoding undoes encoding. */
  lemma {:induction false} DecodeEncode(cs: seq<nat>)
    requires forall k :: 0 <= k < |cs| ==> CodePoint(cs[k])
    ensures CodePoints(EncodeAll(cs)) == cs
  {
    if cs != [] {
      var e, rest := Encode(cs[0]), EncodeAll(cs[1..]);
      var s := e + rest;
      DecodeEncode(cs[1..]);
      TailDecodes(cs[0]);
      assert s[|e|..] == rest && s[1..|e|] == e[1..];
      FirstDecodes(cs[0], s, |e|);
      assert cs == [cs[0]] + cs[1..];
    }
  }

  lemma FirstDecodes(c: nat, s: seq<nat>, n: nat)
    requires CodePoint(c) && n == |Encode(c)| <= |s| && s[..n] == Encode(c)
    ensures CodePoints(s) == [c] + CodePoints(s[n..])
  {
    hide Continue, Encode, Lead;
    var e := Encode(c);
    LeadBits(c);
    TailDecodes(c);
    assert s[0] == s[..n][0] && s[1..n] == s[..n][1..];
  }

  // ---------------------------------------------------------------- constructor form

  /** The character codes of a list of characters written out with constructors. */
  function ReadChars(t: Term): Option<seq<nat>> {
    if t == App(Const(LIST_NIL, [L.Zero]), Const(CHAR, [])) then Some([])
    else if t.App? && t.f.App? && t.f.f == App(Const(LIST_CONS, [L.Zero]), Const(CHAR, []))
            && t.f.x.App? && t.f.x.f == Const(CHAR_OF_NAT, []) && t.f.x.x.Lit? && t.f.x.x.v.NatLit? then
      match ReadChars(t.x)
      case Some(cs) => Some([t.f.x.x.v.n] + cs)
      case None => None
    else None
  }

  lemma {:induction false} ReadCharList(cs: seq<nat>)
    ensures ReadChars(CharList(cs)) == Some(cs)
  {
    if cs != [] {
      ReadCharList(cs[1..]);
      assert cs == [cs[0]] + cs[1..];
    }
  }

  /** A literal's constructor form is `String.ofList` of the characters that its bytes encode. */
  lemma LiteralReads(cs: seq<nat>)
    requires forall k :: 0 <= k < |cs| ==> CodePoint(cs[k])
    ensures var t := StrLitToCtor(EncodeAll(cs));
            t.App? && t.f == Const(STRING_OF_LIST, []) && ReadChars(t.x) == Some(cs)
  {
    DecodeEncode(cs);
    ReadCharList(cs);
  }
}
