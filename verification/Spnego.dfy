/** The DER subset that carries SPNEGO tokens (RFC 4178 section 4.2; X.690 section 10.1). */
module Spnego {
  import opened Bytes

  const TAG_SEQUENCE: byte := 0x30
  const TAG_OBJECT: byte := 0x06
  const TAG_OCTET: byte := 0x04
  const TAG_ENUMERATED: byte := 0x0A
  const TAG_APP_0: byte := 0x60
  const TAG_CTX_0: byte := 0xA0
  const TAG_CTX_1: byte := 0xA1
  const TAG_CTX_2: byte := 0xA2
  const TAG_CTX_3: byte := 0xA3

  const OID_SPNEGO: bytes := [0x2B, 0x06, 0x01, 0x05, 0x05, 0x02]
  const OID_NTLMSSP: bytes := [0x2B, 0x06, 0x01, 0x04, 0x01, 0x82, 0x37, 0x02, 0x02, 0x0A]

  // ---- definite lengths ----

  /** Big-endian digits, none for zero. */
  function Digits(n: nat): (s: bytes)
  {
    if n == 0 then [] else Digits(n / 0x100) + [n % 0x100]
  }

  function FromDigits(s: bytes): (n: nat)
    ensures n < Pow256(|s|)
  {
    if s == [] then 0 else 0x100 * FromDigits(s[..|s| - 1]) + s[|s| - 1]
  }

  lemma {:induction false} DigitsValue(n: nat)
    ensures FromDigits(Digits(n)) == n && (n > 0 ==> Digits(n)[0] != 0)
  {
    if n > 0 {
      DigitsValue(n / 0x100);
      assert Digits(n)[..|Digits(n)| - 1] == Digits(n / 0x100);
    }
  }

  /** No shorter string of digits has the value. */
  lemma {:induction false} DigitsShortest(n: nat, k: nat)
    ensures |Digits(n)| <= k <==> n < Pow256(k)
    decreases k
  {
    if k > 0 && n > 0 {
      DigitsShortest(n / 0x100, k - 1);
    }
  }

  /** `der_len` for a 64-bit usize. */
  function DerLen(n: u64): (s: bytes)
  {
    if n < 0x80 then [n]
    else
      DigitsShortest(n, 8); Widths();
      [0x80 + |Digits(n)|] + Digits(n)
  }

  function Reverse(s: bytes): bytes {
    if s == [] then [] else [s[|s| - 1]] + Reverse(s[..|s| - 1])
  }

  /** The division loop peels the lowest digit off `v` and onto the little-endian buffer. */
  lemma Peel(v: nat, low: bytes)
    requires v > 0
    ensures Digits(v) + Reverse(low) == Digits(v / 0x100) + Reverse(low + [v % 0x100])
    ensures |Reverse(low + [v % 0x100])| == |Reverse(low)| + 1
  {
    assert (low + [v % 0x100])[..|low|] == low;
    Assoc(Digits(v / 0x100), [v % 0x100], Reverse(low));
  }

  lemma PushBack(out: bytes, s: bytes, i: nat)
    requires i < |s|
    ensures out + Reverse(s[..i + 1]) == out + [s[i]] + Reverse(s[..i])
  {
    assert s[..i + 1][..i] == s[..i];
    Assoc(out, [s[i]], Reverse(s[..i]));
  }

  lemma NoDigits()
    ensures Digits(0) == [] && Reverse([]) == []
  {
  }

  /** `der_len`: digits low first into a buffer, then out in reverse. */
  method WriteDerLen(n: u64, out0: bytes) returns (out: bytes)
    ensures out == out0 + DerLen(n)
  {
    hide Pow256, Digits, Reverse;
    if n < 0x80 {
      return out0 + [n];
    }
    Widths();
    DigitsShortest(n, 8);
    NoDigits();
    Nil(Digits(n));
    var tmp := new byte[8](_ => 0);
    var nb: nat, v: nat := 0, n;
    while v > 0
      invariant nb <= 8 && |Reverse(tmp[..nb])| == nb
      invariant Digits(n) == Digits(v) + Reverse(tmp[..nb])
      decreases v
    {
      ghost var low := tmp[..nb];
      Peel(v, low);
      tmp[nb] := v % 0x100;
      assert tmp[..nb + 1] == low + [v % 0x100];
      v := v / 0x100;
      nb := nb + 1;
    }
    Nil(Reverse(tmp[..nb]));
    out := out0 + [0x80 + nb];
    Assoc(out0, [0x80 + nb], Digits(n));
    var i := nb;
    while i > 0
      invariant i <= nb
      invariant out + Reverse(tmp[..i]) == out0 + DerLen(n)
    {
      i := i - 1;
      PushBack(out, tmp[..], i);
      assert tmp[..][..i] == tmp[..i] && tmp[..][..i + 1] == tmp[..i + 1];
      out := out + [tmp[i]];
    }
    Nil(out);
  }

  function ReadLen(buf: bytes, pos: nat): (r: Result<(nat, nat)>)
    ensures r.Ok? ==> pos < r.value.1 <= |buf|
  {
    if pos >= |buf| then Err("DER length truncated")
    else if buf[pos] < 0x80 then Ok((buf[pos], pos + 1))
    else
      var nb := buf[pos] - 0x80;
      if nb == 0 || nb > 4 then Err("DER length form unsupported")
      else if pos + 1 + nb > |buf| then Err("DER length truncated")
      else Ok((FromDigits(buf[pos + 1..pos + 1 + nb]), pos + 1 + nb))
  }

  method ReadLength(buf: bytes, pos: nat) returns (r: Result<(nat, nat)>)
    ensures r == ReadLen(buf, pos)
  {
    if pos >= |buf| {
      return Err("DER length truncated");
    }
    if buf[pos] < 0x80 {
      return Ok((buf[pos], pos + 1));
    }
    var nb := buf[pos] - 0x80;
    if nb == 0 || nb > 4 {
      return Err("DER length form unsupported");
    }
    if pos + 1 + nb > |buf| {
      return Err("DER length truncated");
    }
    var v: nat := 0;
    for i := 0 to nb
      invariant v == FromDigits(buf[pos + 1..pos + 1 + i])
    {
      assert buf[pos + 1..pos + 1 + (i + 1)][..i] == buf[pos + 1..pos + 1 + i];
      v := v * 0x100 + buf[pos + 1 + i];
    }
    r := Ok((v, pos + 1 + nb));
  }

  /** A written length reads back, wherever it stands, exactly when it fits 32 bits; a longer one is
      refused. */
  lemma ReadLenInvertsIff(p: bytes, n: u64, q: bytes)
    ensures var r := ReadLen(p + DerLen(n) + q, |p|);
            if n < U32 then r == Ok((n, |p| + |DerLen(n)|)) else r.Err?
  {
    hide Digits, FromDigits, Pow256;
    Widths();
    DigitsValue(n);
    DigitsShortest(n, 4);
    DigitsShortest(n, 8);
    DigitsShortest(n, 0);
    Pow0();
    var d := DerLen(n);
    var buf := p + d + q;
    Assoc(p, d, q);
    SliceSecond(p, d + q, 0, |d|);
    assert buf[|p|] == d[0];
    if n >= 0x80 {
      SliceSecond(p, d + q, 1, |d|);
      SliceFirst(d, q, 1, |d|);
      assert d[1..] == Digits(n);
    }
  }

  lemma Pow0()
    ensures Pow256(0) == 1
  {
  }

  /** The written form is minimal: whatever the reader takes for `n` is at least as long. */
  lemma DerLenIsMinimal(buf: bytes, pos: nat)
    requires ReadLen(buf, pos).Ok?
    ensures var (n, next) := ReadLen(buf, pos).value;
            n < U32 && |DerLen(n)| <= next - pos
  {
    hide Digits, FromDigits, Pow256;
    Widths();
    FourDigits();
    var (n, next) := ReadLen(buf, pos).value;
    if buf[pos] >= 0x80 {
      var nb := buf[pos] - 0x80;
      DigitsShortest(n, nb);
    }
  }

  lemma FourDigits()
    ensures forall k :: 0 <= k <= 4 ==> Pow256(k) <= U32
  {
    Widths();
    assert Pow256(1) == 0x100 * Pow256(0) && Pow256(3) == 0x100 * Pow256(2);
    forall k | 0 <= k <= 4
      ensures Pow256(k) <= U32
    {
      assert k == 0 || k == 1 || k == 2 || k == 3 || k == 4;
    }
  }

  // ---- tag-length-value ----

  function Tlv(tag: byte, content: bytes): bytes
    requires |content| < U64
  {
    [tag] + DerLen(|content|) + content
  }

  function ReadAnyTlv(buf: bytes, pos: nat): (r: Result<(byte, bytes, nat)>)
    ensures r.Ok? ==> pos < r.value.2 <= |buf|
  {
    if pos >= |buf| then Err("DER tag truncated")
    else match ReadLen(buf, pos + 1)
      case Err(e) => Err(e)
      case Ok((len, at)) =>
        if at + len > |buf| then Err("DER content truncated")
        else Ok((buf[pos], buf[at..at + len], at + len))
  }

  function ReadTlv(buf: bytes, pos: nat, tag: byte): (r: Result<(bytes, nat)>)
    ensures r.Ok? ==> pos < r.value.1 <= |buf|
  {
    if pos < |buf| && buf[pos] != tag then Err("unexpected DER tag")
    else match ReadAnyTlv(buf, pos)
      case Err(e) => Err(e)
      case Ok((_, content, next)) => Ok((content, next))
  }

  /** A written TLV reads back in any surroundings, exactly when its content's length fits 32 bits. */
  lemma ReadAnyInvertsIff(p: bytes, tag: byte, content: bytes, q: bytes)
    requires |content| < U64
    ensures var buf, t := p + Tlv(tag, content) + q, Tlv(tag, content);
            && |p| < |buf| && buf[|p|] == tag
            && if |content| < U32 then ReadAnyTlv(buf, |p|) == Ok((tag, content, |p| + |t|))
               else ReadAnyTlv(buf, |p|).Err?
  {
    hide DerLen, ReadLen;
    var d := DerLen(|content|);
    var buf := p + Tlv(tag, content) + q;
    Surround(p, tag, d, content, q);
    ReadLenInvertsIff(p + [tag], |content|, content + q);
  }

  lemma Surround(p: bytes, tag: byte, d: bytes, content: bytes, q: bytes)
    ensures var buf := p + ([tag] + d + content) + q; var at := |p| + 1 + |d|;
            && buf == p + [tag] + d + (content + q)
            && buf[|p|] == tag && buf[at..at + |content|] == content
  {
  }

  lemma ReadWriteTlv(tag: byte, content: bytes)
    requires |content| < U64
    ensures if |content| < U32 then ReadTlv(Tlv(tag, content), 0, tag) == Ok((content, |Tlv(tag, content)|))
            else ReadTlv(Tlv(tag, content), 0, tag).Err?
  {
    hide Tlv, ReadAnyTlv;
    var t := Tlv(tag, content);
    ReadAnyInvertsIff([], tag, content, []);
    assert [] + t + [] == t;
  }

  // ---- NegTokenResp ----

  datatype NegState = AcceptCompleted | AcceptIncomplete | Reject | RequestMic

  function StateByte(s: NegState): byte {
    match s case AcceptCompleted => 0 case AcceptIncomplete => 1 case Reject => 2 case RequestMic => 3
  }

  function StateFromByte(b: byte): Result<NegState> {
    if b == 0 then Ok(AcceptCompleted) else if b == 1 then Ok(AcceptIncomplete)
    else if b == 2 then Ok(Reject) else if b == 3 then Ok(RequestMic)
    else Err("invalid NegState")
  }

  datatype NegTokenResp = NegTokenResp(
    state: Option<NegState>, mech: Option<bytes>, token: Option<bytes>, mic: Option<bytes>)

  /** What one element of the sequence contributes; unknown tags are skipped. */
  function StoreResp(acc: NegTokenResp, tag: byte, content: bytes): Result<NegTokenResp> {
    if tag == TAG_CTX_0 then
      match ReadTlv(content, 0, TAG_ENUMERATED)
      case Err(e) => Err(e)
      case Ok((en, _)) =>
        if |en| != 1 then Err("NegState ENUMERATED not 1 byte")
        else match StateFromByte(en[0])
          case Err(e) => Err(e)
          case Ok(s) => Ok(acc.(state := Some(s)))
    else if tag == TAG_CTX_1 then
      match ReadTlv(content, 0, TAG_OBJECT) case Err(e) => Err(e) case Ok((o, _)) => Ok(acc.(mech := Some(o)))
    else if tag == TAG_CTX_2 then
      match ReadTlv(content, 0, TAG_OCTET) case Err(e) => Err(e) case Ok((o, _)) => Ok(acc.(token := Some(o)))
    else if tag == TAG_CTX_3 then
      match ReadTlv(content, 0, TAG_OCTET) case Err(e) => Err(e) case Ok((o, _)) => Ok(acc.(mic := Some(o)))
    else Ok(acc)
  }

  function RespFields(body: bytes, pos: nat, acc: NegTokenResp): Result<NegTokenResp>
    decreases |body| - pos
  {
    if pos >= |body| then Ok(acc)
    else match ReadAnyTlv(body, pos)
      case Err(e) => Err(e)
      case Ok((tag, content, next)) =>
        match StoreResp(acc, tag, content)
        case Err(e) => Err(e)
        case Ok(acc1) => RespFields(body, next, acc1)
  }

  const EMPTY_RESP := NegTokenResp(None, None, None, None)

  function DecodeResp(buf: bytes): Result<NegTokenResp> {
    match ReadTlv(buf, 0, TAG_CTX_1)
    case Err(e) => Err(e)
    case Ok((inner, _)) =>
      match ReadTlv(inner, 0, TAG_SEQUENCE)
      case Err(e) => Err(e)
      case Ok((body, _)) => RespFields(body, 0, EMPTY_RESP)
  }

  /** `decode_resp_token`. */
  method DecodeRespToken(buf: bytes) returns (r: Result<NegTokenResp>)
    ensures r == DecodeResp(buf)
  {
    hide ReadTlv, ReadAnyTlv, StoreResp;
    var outer := ReadTlv(buf, 0, TAG_CTX_1);
    if outer.Err? {
      return Err(outer.reason);
    }
    var sequence := ReadTlv(outer.value.0, 0, TAG_SEQUENCE);
    if sequence.Err? {
      return Err(sequence.reason);
    }
    var body, pos, out := sequence.value.0, 0, EMPTY_RESP;
    while pos < |body|
      invariant 0 <= pos && DecodeResp(buf) == RespFields(body, pos, out)
      decreases |body| - pos
    {
      var any := ReadAnyTlv(body, pos);
      if any.Err? {
        return Err(any.reason);
      }
      var (tag, content, next) := any.value;
      var stored := StoreResp(out, tag, content);
      if stored.Err? {
        return Err(stored.reason);
      }
      out := stored.value;
      pos := next;
    }
    r := Ok(out);
  }

  /** Everything together stays addressable with a 64-bit usize. */
  predicate Addressable(mech: Option<bytes>, token: Option<bytes>, mic: Option<bytes>) {
    Size(mech) + Size(token) + Size(mic) + 0x100 < U64
  }

  function Size(o: Option<bytes>): nat {
    if o.Some? then |o.value| else 0
  }

  lemma TlvSize(tag: byte, content: bytes)
    requires |content| < U64
    ensures |content| + 2 <= |Tlv(tag, content)| <= |content| + 10
  {
    hide Digits, Pow256;
    Widths();
    DigitsShortest(|content|, 8);
  }

  function Field(tag: byte, inner: byte, v: Option<bytes>): (s: bytes)
    requires Size(v) + 0x20 < U64
    ensures |s| <= Size(v) + 20
  {
    if v.None? then [] else TlvSize(inner, v.value); TlvSize(tag, Tlv(inner, v.value)); Tlv(tag, Tlv(inner, v.value))
  }

  /** The sequence body of a NegTokenResp. */
  function RespBody(state: NegState, mech: Option<bytes>, token: Option<bytes>, mic: Option<bytes>): (s: bytes)
    requires Addressable(mech, token, mic)
    ensures |s| <= Size(mech) + Size(token) + Size(mic) + 0x60
  {
    Field(TAG_CTX_0, TAG_ENUMERATED, Some([StateByte(state)])) + Field(TAG_CTX_1, TAG_OBJECT, mech)
    + Field(TAG_CTX_2, TAG_OCTET, token) + Field(TAG_CTX_3, TAG_OCTET, mic)
  }

  /** The content of the outer TLV. */
  function RespInner(state: NegState, mech: Option<bytes>, token: Option<bytes>, mic: Option<bytes>): (s: bytes)
    requires Addressable(mech, token, mic)
    ensures |s| < U64
  {
    TlvSize(TAG_SEQUENCE, RespBody(state, mech, token, mic));
    Tlv(TAG_SEQUENCE, RespBody(state, mech, token, mic))
  }

  function EncodeResp(state: NegState, mech: Option<bytes>, token: Option<bytes>, mic: Option<bytes>): bytes
    requires Addressable(mech, token, mic)
  {
    Tlv(TAG_CTX_1, RespInner(state, mech, token, mic))
  }

  /** The nesting adds little to what it carries. */
  lemma RespSize(state: NegState, mech: Option<bytes>, token: Option<bytes>, mic: Option<bytes>)
    requires Addressable(mech, token, mic)
    ensures |EncodeResp(state, mech, token, mic)| <= Size(mech) + Size(token) + Size(mic) + 0x80
    ensures |RespInner(state, mech, token, mic)| <= Size(mech) + Size(token) + Size(mic) + 0x80
  {
    hide Tlv, RespBody;
    TlvSize(TAG_SEQUENCE, RespBody(state, mech, token, mic));
    TlvSize(TAG_CTX_1, RespInner(state, mech, token, mic));
  }

  method WriteTlv(tag: byte, content: bytes, out0: bytes) returns (out: bytes)
    requires |content| < U64
    ensures out == out0 + Tlv(tag, content)
  {
    hide DerLen;
    out := out0 + [tag];
    out := WriteDerLen(|content|, out);
    out := out + content;
    Assoc(out0, [tag], DerLen(|content|));
    Assoc(out0, [tag] + DerLen(|content|), content);
  }

  method WriteField(tag: byte, inner: byte, v: Option<bytes>, out0: bytes) returns (out: bytes)
    requires Size(v) + 0x20 < U64
    ensures out == out0 + Field(tag, inner, v)
  {
    hide Tlv;
    out := out0;
    Nil(out0);
    if v.Some? {
      TlvSize(inner, v.value);
      Nil(Tlv(inner, v.value));
      var o := WriteTlv(inner, v.value, []);
      out := WriteTlv(tag, o, out);
    }
  }

  /** `encode_resp_token`. */
  method EncodeRespToken(state: NegState, mech: Option<bytes>, token: Option<bytes>, mic: Option<bytes>)
    returns (out: bytes)
    requires Addressable(mech, token, mic)
    ensures out == EncodeResp(state, mech, token, mic)
  {
    hide Tlv, Field;
    var sequence := WriteField(TAG_CTX_0, TAG_ENUMERATED, Some([StateByte(state)]), []);
    sequence := WriteField(TAG_CTX_1, TAG_OBJECT, mech, sequence);
    sequence := WriteField(TAG_CTX_2, TAG_OCTET, token, sequence);
    sequence := WriteField(TAG_CTX_3, TAG_OCTET, mic, sequence);
    Nil(Field(TAG_CTX_0, TAG_ENUMERATED, Some([StateByte(state)])));
    assert sequence == RespBody(state, mech, token, mic);
    var inner := WriteTlv(TAG_SEQUENCE, sequence, []);
    Nil(RespInner(state, mech, token, mic));
    out := WriteTlv(TAG_CTX_1, inner, []);
    Nil(out);
  }

  /** One present field, read in place, updates the accumulator and moves past it. */
  lemma FieldReads(p: bytes, tag: byte, inner: byte, v: bytes, q: bytes, acc: NegTokenResp, acc1: NegTokenResp)
    requires |v| + 0x20 < U64 && |p + Field(tag, inner, Some(v)) + q| < U32
    requires ReadTlv(Tlv(inner, v), 0, inner).Ok? ==> StoreResp(acc, tag, Tlv(inner, v)) == Ok(acc1)
    ensures var f := Field(tag, inner, Some(v));
            RespFields(p + f + q, |p|, acc) == RespFields(p + f + q, |p + f|, acc1)
  {
    hide Tlv, ReadTlv, ReadAnyTlv, StoreResp;
    TlvSize(inner, v);
    TlvSize(tag, Tlv(inner, v));
    ReadWriteTlv(inner, v);
    ReadAnyInvertsIff(p, tag, Tlv(inner, v), q);
  }

  /** An optional field, present or not. */
  lemma OptionReads(p: bytes, tag: byte, inner: byte, v: Option<bytes>, q: bytes, acc: NegTokenResp, acc1: NegTokenResp)
    requires Size(v) + 0x20 < U64 && |p + Field(tag, inner, v) + q| < U32
    requires v.None? ==> acc1 == acc
    requires v.Some? && ReadTlv(Tlv(inner, v.value), 0, inner) == Ok((v.value, |Tlv(inner, v.value)|)) ==>
      StoreResp(acc, tag, Tlv(inner, v.value)) == Ok(acc1)
    ensures var f := Field(tag, inner, v);
            RespFields(p + f + q, |p|, acc) == RespFields(p + f + q, |p + f|, acc1)
  {
    hide Tlv, ReadTlv, ReadAnyTlv, StoreResp, RespFields;
    if v.Some? {
      TlvSize(inner, v.value);
      TlvSize(tag, Tlv(inner, v.value));
      ReadWriteTlv(inner, v.value);
      FieldReads(p, tag, inner, v.value, q, acc, acc1);
    } else {
      assert p + [] == p;
    }
  }

  lemma FourParts(a: bytes, b: bytes, c: bytes, d: bytes)
    ensures var s := a + b + c + d; s == [] + a + (b + c + d) == a + b + (c + d) == s + [] && [] + a == a
  {
  }

  lemma BodyReads(state: NegState, mech: Option<bytes>, token: Option<bytes>, mic: Option<bytes>)
    requires Addressable(mech, token, mic) && |RespBody(state, mech, token, mic)| < U32
    ensures RespFields(RespBody(state, mech, token, mic), 0, EMPTY_RESP)
            == Ok(NegTokenResp(Some(state), mech, token, mic))
  {
    hide Tlv, Field, ReadTlv;
    var f0 := Field(TAG_CTX_0, TAG_ENUMERATED, Some([StateByte(state)]));
    var f1 := Field(TAG_CTX_1, TAG_OBJECT, mech);
    var f2 := Field(TAG_CTX_2, TAG_OCTET, token);
    var f3 := Field(TAG_CTX_3, TAG_OCTET, mic);
    var a0 := EMPTY_RESP.(state := Some(state));
    var a1 := a0.(mech := mech);
    var a2 := a1.(token := token);
    var a3 := a2.(mic := mic);
    var body := RespBody(state, mech, token, mic);
    FourParts(f0, f1, f2, f3);
    OptionReads([], TAG_CTX_0, TAG_ENUMERATED, Some([StateByte(state)]), f1 + f2 + f3, EMPTY_RESP, a0);
    OptionReads(f0, TAG_CTX_1, TAG_OBJECT, mech, f2 + f3, a0, a1);
    OptionReads(f0 + f1, TAG_CTX_2, TAG_OCTET, token, f3, a1, a2);
    OptionReads(f0 + f1 + f2, TAG_CTX_3, TAG_OCTET, mic, [], a2, a3);
  }

  /** Decoding an encoded NegTokenResp returns exactly its fields, for every state and every combination of
      optional parts, if and only if the outer content's length fits 32 bits. */
  lemma RespRoundTripIff(state: NegState, mech: Option<bytes>, token: Option<bytes>, mic: Option<bytes>)
    requires Addressable(mech, token, mic)
    ensures DecodeResp(EncodeResp(state, mech, token, mic)) == Ok(NegTokenResp(Some(state), mech, token, mic))
            <==> |RespInner(state, mech, token, mic)| < U32
  {
    hide Tlv, RespBody, ReadTlv, RespFields;
    var body := RespBody(state, mech, token, mic);
    TlvSize(TAG_SEQUENCE, body);
    ReadWriteTlv(TAG_CTX_1, RespInner(state, mech, token, mic));
    if |RespInner(state, mech, token, mic)| < U32 {
      ReadWriteTlv(TAG_SEQUENCE, body);
      BodyReads(state, mech, token, mic);
    }
  }

  // ---- NegTokenInit ----

  datatype NegTokenInit = NegTokenInit(mechs: seq<bytes>, token: Option<bytes>)

  function ReadOids(body: bytes, pos: nat, acc: seq<bytes>): Result<seq<bytes>>
    decreases |body| - pos
  {
    if pos >= |body| then Ok(acc)
    else match ReadTlv(body, pos, TAG_OBJECT)
      case Err(e) => Err(e)
      case Ok((oid, next)) => ReadOids(body, next, acc + [oid])
  }

  /** One element of the init sequence: mechanism list, mechanism token, or something ignored. */
  function StoreInit(acc: NegTokenInit, tag: byte, content: bytes): Result<NegTokenInit> {
    if tag == TAG_CTX_0 then
      match ReadTlv(content, 0, TAG_SEQUENCE)
      case Err(e) => Err(e)
      case Ok((list, _)) =>
        match ReadOids(list, 0, acc.mechs) case Err(e) => Err(e) case Ok(ms) => Ok(acc.(mechs := ms))
    else if tag == TAG_CTX_2 then
      match ReadTlv(content, 0, TAG_OCTET) case Err(e) => Err(e) case Ok((o, _)) => Ok(acc.(token := Some(o)))
    else Ok(acc)
  }

  function InitFields(body: bytes, pos: nat, acc: NegTokenInit): Result<NegTokenInit>
    decreases |body| - pos
  {
    if pos >= |body| then Ok(acc)
    else match ReadAnyTlv(body, pos)
      case Err(e) => Err(e)
      case Ok((tag, content, next)) =>
        match StoreInit(acc, tag, content)
        case Err(e) => Err(e)
        case Ok(acc1) => InitFields(body, next, acc1)
  }

  /** The content of the choice inside the GSS-API wrapper. */
  function UnwrapInit(buf: bytes): Result<bytes> {
    match ReadTlv(buf, 0, TAG_APP_0)
    case Err(e) => Err(e)
    case Ok((gss, _)) =>
      match ReadTlv(gss, 0, TAG_OBJECT)
      case Err(e) => Err(e)
      case Ok((mech, next)) =>
        if mech != OID_SPNEGO then Err("not an SPNEGO token")
        else match ReadTlv(gss, next, TAG_CTX_0)
          case Err(e) => Err(e)
          case Ok((init, _)) =>
            match ReadTlv(init, 0, TAG_SEQUENCE) case Err(e) => Err(e) case Ok((body, _)) => Ok(body)
  }

  function DecodeInit(buf: bytes): Result<NegTokenInit> {
    match UnwrapInit(buf)
    case Err(e) => Err(e)
    case Ok(body) => InitFields(body, 0, NegTokenInit([], None))
  }

  method ReadOidList(body: bytes, acc: seq<bytes>) returns (r: Result<seq<bytes>>)
    ensures r == ReadOids(body, 0, acc)
  {
    hide ReadTlv;
    var p, out := 0, acc;
    while p < |body|
      invariant 0 <= p && ReadOids(body, 0, acc) == ReadOids(body, p, out)
      decreases |body| - p
    {
      var oid := ReadTlv(body, p, TAG_OBJECT);
      if oid.Err? {
        return Err(oid.reason);
      }
      out := out + [oid.value.0];
      p := oid.value.1;
    }
    r := Ok(out);
  }

  /** `decode_init_token`. */
  method DecodeInitToken(buf: bytes) returns (r: Result<NegTokenInit>)
    ensures r == DecodeInit(buf)
  {
    hide ReadTlv, ReadAnyTlv, UnwrapInit, ReadOids;
    var unwrapped := UnwrapInit(buf);
    if unwrapped.Err? {
      return Err(unwrapped.reason);
    }
    var body, pos, out := unwrapped.value, 0, NegTokenInit([], None);
    while pos < |body|
      invariant 0 <= pos && DecodeInit(buf) == InitFields(body, pos, out)
      decreases |body| - pos
    {
      var any := ReadAnyTlv(body, pos);
      if any.Err? {
        return Err(any.reason);
      }
      var (tag, content, next) := any.value;
      if tag == TAG_CTX_0 {
        var list := ReadTlv(content, 0, TAG_SEQUENCE);
        if list.Err? {
          return Err(list.reason);
        }
        var mechs := ReadOidList(list.value.0, out.mechs);
        if mechs.Err? {
          return Err(mechs.reason);
        }
        out := out.(mechs := mechs.value);
      } else if tag == TAG_CTX_2 {
        var octets := ReadTlv(content, 0, TAG_OCTET);
        if octets.Err? {
          return Err(octets.reason);
        }
        out := out.(token := Some(octets.value.0));
      }
      pos := next;
    }
    r := Ok(out);
  }

  function MechSize(mechs: seq<bytes>): nat {
    if mechs == [] then 0 else |mechs[0]| + 10 + MechSize(mechs[1..])
  }

  function Oids(mechs: seq<bytes>): (s: bytes)
    requires MechSize(mechs) < U64
    ensures |s| <= MechSize(mechs)
  {
    if mechs == [] then []
    else TlvSize(TAG_OBJECT, mechs[0]); Tlv(TAG_OBJECT, mechs[0]) + Oids(mechs[1..])
  }

  predicate InitAddressable(mechs: seq<bytes>, token: Option<bytes>) {
    MechSize(mechs) + Size(token) + 0x100 < U64
  }

  /** NegTokenInit ::= SEQUENCE { mechTypes [0], mechToken [2] OPTIONAL }. */
  function InitBody(mechs: seq<bytes>, token: Option<bytes>): (s: bytes)
    requires InitAddressable(mechs, token)
    ensures |s| <= MechSize(mechs) + Size(token) + 0x40
  {
    TlvSize(TAG_SEQUENCE, Oids(mechs));
    TlvSize(TAG_CTX_0, Tlv(TAG_SEQUENCE, Oids(mechs)));
    Field(TAG_CTX_0, TAG_SEQUENCE, Some(Oids(mechs))) + Field(TAG_CTX_2, TAG_OCTET, token)
  }

  /** The content of the GSS-API wrapper around an init token. */
  function GssInner(mechs: seq<bytes>, token: Option<bytes>): (s: bytes)
    requires InitAddressable(mechs, token)
    ensures |s| < U64
  {
    var body := InitBody(mechs, token);
    TlvSize(TAG_SEQUENCE, body);
    TlvSize(TAG_CTX_0, Tlv(TAG_SEQUENCE, body));
    TlvSize(TAG_OBJECT, OID_SPNEGO);
    Tlv(TAG_OBJECT, OID_SPNEGO) + Tlv(TAG_CTX_0, Tlv(TAG_SEQUENCE, body))
  }

  function InitToken(mechs: seq<bytes>, token: Option<bytes>): bytes
    requires InitAddressable(mechs, token)
  {
    Tlv(TAG_APP_0, GssInner(mechs, token))
  }

  /** `encode_init_response` advertises NTLMSSP and nothing else. */
  method EncodeInitResponse() returns (out: bytes)
    ensures InitAddressable([OID_NTLMSSP], None) && out == InitToken([OID_NTLMSSP], None)
  {
    hide Tlv;
    TlvSize(TAG_OBJECT, OID_NTLMSSP);
    assert MechSize([OID_NTLMSSP]) == 20;
    var seqBody := WriteTlv(TAG_OBJECT, OID_NTLMSSP, []);
    Nil(Tlv(TAG_OBJECT, OID_NTLMSSP));
    assert [OID_NTLMSSP][1..] == [];
    assert seqBody == Oids([OID_NTLMSSP]);
    TlvSize(TAG_SEQUENCE, seqBody);
    var outer := WriteTlv(TAG_SEQUENCE, seqBody, []);
    Nil(Tlv(TAG_SEQUENCE, seqBody));
    TlvSize(TAG_CTX_0, outer);
    var body := WriteTlv(TAG_CTX_0, outer, []);
    Nil(Tlv(TAG_CTX_0, outer));
    Nil(body);
    assert body == InitBody([OID_NTLMSSP], None);
    TlvSize(TAG_SEQUENCE, body);
    var init := WriteTlv(TAG_SEQUENCE, body, []);
    Nil(Tlv(TAG_SEQUENCE, body));
    TlvSize(TAG_CTX_0, init);
    var choice := WriteTlv(TAG_CTX_0, init, []);
    Nil(Tlv(TAG_CTX_0, init));
    var gss := WriteTlv(TAG_OBJECT, OID_SPNEGO, []);
    Nil(Tlv(TAG_OBJECT, OID_SPNEGO));
    gss := gss + choice;
    assert gss == GssInner([OID_NTLMSSP], None);
    out := WriteTlv(TAG_APP_0, gss, []);
    Nil(Tlv(TAG_APP_0, gss));
  }

  lemma {:induction false} OidsRead(p: bytes, mechs: seq<bytes>, acc: seq<bytes>)
    requires MechSize(mechs) < U64 && |p + Oids(mechs)| < U32
    ensures ReadOids(p + Oids(mechs), |p|, acc) == Ok(acc + mechs)
    decreases |mechs|
  {
    hide Tlv, ReadAnyTlv;
    if mechs == [] {
      assert acc + mechs == acc;
    } else {
      var m, rest := mechs[0], Oids(mechs[1..]);
      TlvSize(TAG_OBJECT, m);
      ReadAnyInvertsIff(p, TAG_OBJECT, m, rest);
      Assoc(p, Tlv(TAG_OBJECT, m), rest);
      OidsRead(p + Tlv(TAG_OBJECT, m), mechs[1..], acc + [m]);
      assert acc + [m] + mechs[1..] == acc + mechs;
    }
  }

  lemma InitBodyReads(mechs: seq<bytes>, token: Option<bytes>)
    requires InitAddressable(mechs, token) && |InitBody(mechs, token)| < U32
    ensures InitFields(InitBody(mechs, token), 0, NegTokenInit([], None)) == Ok(NegTokenInit(mechs, token))
  {
    hide Tlv, ReadTlv, ReadAnyTlv, Oids, ReadOids;
    var oids := Oids(mechs);
    TlvSize(TAG_SEQUENCE, oids);
    var list := Tlv(TAG_SEQUENCE, oids);
    TlvSize(TAG_CTX_0, list);
    var f0, f1 := Tlv(TAG_CTX_0, list), Field(TAG_CTX_2, TAG_OCTET, token);
    ReadAnyInvertsIff([], TAG_CTX_0, list, f1);
    Nil(f0);
    ReadWriteTlv(TAG_SEQUENCE, oids);
    OidsRead([], mechs, []);
    Nil(oids);
    assert [] + mechs == mechs;
    var body, a1 := InitBody(mechs, token), NegTokenInit(mechs, None);
    assert body == f0 + f1;
    assert InitFields(body, 0, NegTokenInit([], None)) == InitFields(body, |f0|, a1);
    if token.Some? {
      TlvSize(TAG_OCTET, token.value);
      TlvSize(TAG_CTX_2, Tlv(TAG_OCTET, token.value));
      ReadAnyInvertsIff(f0, TAG_CTX_2, Tlv(TAG_OCTET, token.value), []);
      Nil(f0 + f1);
      ReadWriteTlv(TAG_OCTET, token.value);
    }
  }

  /** Decoding a GSS-wrapped init token returns its mechanism list and token, if and only if the wrapper's
      content fits 32 bits; in particular the blob the server publishes decodes to NTLMSSP alone. */
  lemma InitRoundTripIff(mechs: seq<bytes>, token: Option<bytes>)
    requires InitAddressable(mechs, token)
    ensures DecodeInit(InitToken(mechs, token)) == Ok(NegTokenInit(mechs, token)) <==> |GssInner(mechs, token)| < U32
  {
    hide Tlv, ReadTlv, InitBody, InitFields;
    var gss, body := GssInner(mechs, token), InitBody(mechs, token);
    ReadWriteTlv(TAG_APP_0, gss);
    if |gss| < U32 {
      UnwrapReads(mechs, token);
      InitBodyReads(mechs, token);
    }
  }

  lemma GssSizes(mechs: seq<bytes>, token: Option<bytes>)
    requires InitAddressable(mechs, token)
    ensures |InitBody(mechs, token)| < |Tlv(TAG_SEQUENCE, InitBody(mechs, token))| < U64
    ensures var init := Tlv(TAG_SEQUENCE, InitBody(mechs, token));
            |init| < |Tlv(TAG_CTX_0, init)| < |GssInner(mechs, token)| < U64
  {
    hide Tlv, InitBody;
    var body := InitBody(mechs, token);
    TlvSize(TAG_SEQUENCE, body);
    TlvSize(TAG_CTX_0, Tlv(TAG_SEQUENCE, body));
    TlvSize(TAG_OBJECT, OID_SPNEGO);
  }

  lemma UnwrapReads(mechs: seq<bytes>, token: Option<bytes>)
    requires InitAddressable(mechs, token) && |GssInner(mechs, token)| < U32
    ensures |InitBody(mechs, token)| < U32 && UnwrapInit(InitToken(mechs, token)) == Ok(InitBody(mechs, token))
  {
    hide Tlv, ReadAnyTlv, InitBody, InitAddressable;
    var gss, body := GssInner(mechs, token), InitBody(mechs, token);
    GssSizes(mechs, token);
    ReadWriteTlv(TAG_APP_0, gss);
    var init := Tlv(TAG_SEQUENCE, body);
    var oid, choice := Tlv(TAG_OBJECT, OID_SPNEGO), Tlv(TAG_CTX_0, init);
    ReadAnyInvertsIff([], TAG_OBJECT, OID_SPNEGO, choice);
    Nil(oid);
    ReadAnyInvertsIff(oid, TAG_CTX_0, init, []);
    Nil(gss);
    ReadWriteTlv(TAG_SEQUENCE, body);
  }

  // ---- the bytes themselves ----

  lemma InitTokenStarts(mechs: seq<bytes>, token: Option<bytes>)
    requires InitAddressable(mechs, token)
    ensures |InitToken(mechs, token)| > 0 && InitToken(mechs, token)[0] == 0x60
  {
    hide GssInner, DerLen;
  }

  lemma RespTokenStarts(state: NegState, mech: Option<bytes>, token: Option<bytes>, mic: Option<bytes>)
    requires Addressable(mech, token, mic)
    ensures var t := EncodeResp(state, mech, token, mic); |t| > 0 && t[0] == 0xA1
  {
    hide RespInner, DerLen;
  }

  lemma SmallTlv(tag: byte, content: bytes)
    requires |content| < 0x80
    ensures Tlv(tag, content) == [tag, |content|] + content
  {
  }

  lemma SmallField(tag: byte, inner: byte, v: bytes)
    requires |v| < 0x70
    ensures Field(tag, inner, Some(v)) == [tag, |v| + 2, inner, |v|] + v
  {
    hide Tlv;
    SmallTlv(inner, v);
    SmallTlv(tag, [inner, |v|] + v);
    assert [tag, |v| + 2] + ([inner, |v|] + v) == [tag, |v| + 2, inner, |v|] + v;
  }

  /** A response whose sequence body is short. */
  lemma SmallResp(state: NegState, mech: Option<bytes>, token: Option<bytes>, mic: Option<bytes>, body: bytes)
    requires Addressable(mech, token, mic) && RespBody(state, mech, token, mic) == body && |body| < 0x70
    ensures EncodeResp(state, mech, token, mic) == [0xA1, |body| + 2, 0x30, |body|] + body
  {
    hide Tlv, RespBody;
    SmallTlv(0x30, body);
    SmallTlv(0xA1, [0x30, |body|] + body);
    assert [0xA1, |body| + 2] + ([0x30, |body|] + body) == [0xA1, |body| + 2, 0x30, |body|] + body;
  }

  /** The accept-completed answer, byte by byte (RFC 4178 section 4.2.2, X.690). */
  lemma CompletedBytes()
    ensures EncodeResp(AcceptCompleted, None, None, None) == [0xA1, 7, 0x30, 5, 0xA0, 3, 0x0A, 1, 0]
  {
    hide EncodeResp;
    CompletedBody();
    SmallResp(AcceptCompleted, None, None, None, [0xA0, 3, 0x0A, 1, 0]);
  }

  lemma CompletedBody()
    ensures RespBody(AcceptCompleted, None, None, None) == [0xA0, 3, 0x0A, 1, 0]
  {
    hide Tlv;
    SmallField(0xA0, 0x0A, [0]);
    var f := Field(TAG_CTX_0, TAG_ENUMERATED, Some([0]));
    assert f == [0xA0, 3, 0x0A, 1, 0];
    assert f + [] + [] + [] == f;
  }

  const NTLM_OID: bytes := [6, 10, 0x2B, 6, 1, 4, 1, 0x82, 0x37, 2, 2, 10]

  const INCOMPLETE_BODY: bytes :=
    [0xA0, 3, 0x0A, 1, 1] + ([0xA1, 12] + NTLM_OID) + [0xA2, 3, 4, 1, 0xAB] + [0xA3, 3, 4, 1, 0xCD]

  /** An answer with all its parts, byte by byte. */
  lemma IncompleteBytes()
    ensures EncodeResp(AcceptIncomplete, Some(OID_NTLMSSP), Some([0xAB]), Some([0xCD]))
         == [0xA1, 31, 0x30, 29] + INCOMPLETE_BODY
  {
    hide EncodeResp;
    IncompleteBody();
    SmallResp(AcceptIncomplete, Some(OID_NTLMSSP), Some([0xAB]), Some([0xCD]), INCOMPLETE_BODY);
  }

  lemma IncompleteBody()
    ensures RespBody(AcceptIncomplete, Some(OID_NTLMSSP), Some([0xAB]), Some([0xCD])) == INCOMPLETE_BODY
  {
    hide Tlv, Field;
    SmallField(0xA0, 0x0A, [1]);
    SmallField(0xA1, 0x06, OID_NTLMSSP);
    SmallField(0xA2, 0x04, [0xAB]);
    SmallField(0xA3, 0x04, [0xCD]);
    assert Field(TAG_CTX_0, TAG_ENUMERATED, Some([1])) == [0xA0, 3, 0x0A, 1, 1];
    assert Field(TAG_CTX_1, TAG_OBJECT, Some(OID_NTLMSSP)) == [0xA1, 12] + NTLM_OID;
    assert Field(TAG_CTX_2, TAG_OCTET, Some([0xAB])) == [0xA2, 3, 4, 1, 0xAB];
    assert Field(TAG_CTX_3, TAG_OCTET, Some([0xCD])) == [0xA3, 3, 4, 1, 0xCD];
  }

  const PUBLISHED_BODY: bytes := [0xA0, 14, 0x30, 12] + NTLM_OID

  /** The blob the server publishes, byte by byte. */
  lemma PublishedBytes()
    ensures InitAddressable([OID_NTLMSSP], None)
    ensures InitToken([OID_NTLMSSP], None)
         == [0x60, 28, 6, 6, 0x2B, 6, 1, 5, 5, 2, 0xA0, 18, 0x30, 16] + PUBLISHED_BODY
  {
    hide Tlv;
    PublishedBody();
    SmallTlv(0x30, PUBLISHED_BODY);
    SmallTlv(0xA0, [0x30, 16] + PUBLISHED_BODY);
    SmallTlv(0x06, OID_SPNEGO);
    var oid: bytes := [6, 6, 0x2B, 6, 1, 5, 5, 2];
    assert [6, 6] + OID_SPNEGO == oid;
    var rest: bytes := [0xA0, 18] + ([0x30, 16] + PUBLISHED_BODY);
    SmallTlv(0x60, oid + rest);
    assert [0x60, 28] + (oid + rest)
        == [0x60, 28, 6, 6, 0x2B, 6, 1, 5, 5, 2, 0xA0, 18, 0x30, 16] + PUBLISHED_BODY;
  }

  lemma PublishedBody()
    ensures InitAddressable([OID_NTLMSSP], None) && InitBody([OID_NTLMSSP], None) == PUBLISHED_BODY
  {
    hide Tlv, Field;
    var mechs := [OID_NTLMSSP];
    assert mechs[1..] == [];
    assert MechSize(mechs) == 20;
    SmallTlv(0x06, OID_NTLMSSP);
    assert Oids(mechs) == [6, 10] + OID_NTLMSSP + Oids([]);
    assert Oids(mechs) == NTLM_OID;
    SmallField(0xA0, 0x30, NTLM_OID);
    assert Field(TAG_CTX_0, TAG_SEQUENCE, Some(NTLM_OID)) == PUBLISHED_BODY;
    NoField();
    assert PUBLISHED_BODY + [] == PUBLISHED_BODY;
  }

  lemma NoField()
    ensures Field(TAG_CTX_2, TAG_OCTET, None) == []
  {
  }
}
