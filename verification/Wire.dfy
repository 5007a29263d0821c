/** The wire form of a result chunk: string fields, decimal integers, padded Base64. */
module Wire {
  import opened Prelude
  import opened ResultStream

  // ---------- Base64 (RFC 4648, section 4) ----------

  type Sextet = v: int | 0 <= v < 64

  function Char64(v: Sextet): char {
    if v < 26 then 'A' + v as char
    else if v < 52 then 'a' + (v - 26) as char
    else if v < 62 then '0' + (v - 52) as char
    else if v == 62 then '+'
    else '/'
  }

  function Value64(c: char): Option<Sextet> {
    if 'A' <= c <= 'Z' then Some(c as int - 'A' as int)
    else if 'a' <= c <= 'z' then Some(c as int - 'a' as int + 26)
    else if '0' <= c <= '9' then Some(c as int - '0' as int + 52)
    else if c == '+' then Some(62)
    else if c == '/' then Some(63)
    else None
  }

  lemma Char64Decodes(v: Sextet)
    ensures Value64(Char64(v)) == Some(v) && Char64(v) != '='
  {
  }

  /** One to three bytes as four characters, missing bytes marked by padding. */
  function EncodeQuad(b: Bytes): string
    requires 1 <= |b| <= 3
  {
    var x, y, z := b[0], if |b| > 1 then b[1] else 0, if |b| > 2 then b[2] else 0;
    [Char64(x / 4), Char64(x % 4 * 16 + y / 16),
     if |b| > 1 then Char64(y % 16 * 4 + z / 64) else '=',
     if |b| > 2 then Char64(z % 64) else '=']
  }

  function Encode64(b: Bytes): string {
    if b == [] then "" else EncodeQuad(b[..Min(3, |b|)]) + Encode64(b[Min(3, |b|)..])
  }

  function DecodeQuad(s: string, pad: nat): Option<Bytes>
    requires |s| == 4 && pad <= 2
  {
    var a, b := Value64(s[0]), Value64(s[1]);
    var c := if pad == 2 then Some(0) else Value64(s[2]);
    var d := if pad >= 1 then Some(0) else Value64(s[3]);
    if a.None? || b.None? || c.None? || d.None? then None
    else
      Some(ThreeBytes(a.value, b.value, c.value, d.value)[..3 - pad])
  }

  function ThreeBytes(a: int, b: int, c: int, d: int): (r: Bytes)
    requires 0 <= a < 64 && 0 <= b < 64 && 0 <= c < 64 && 0 <= d < 64
    ensures |r| == 3
  {
    [a * 4 + b / 16, b % 16 * 16 + c / 4, c % 4 * 64 + d]
  }

  lemma SextetsOfBytes(x: Byte, y: Byte, z: Byte)
    ensures ThreeBytes(x / 4, x % 4 * 16 + y / 16, y % 16 * 4 + z / 64, z % 64) == [x, y, z]
  {
  }

  /** Padding is only looked for in the last quad. */
  function Padding(s: string): (pad: nat)
    requires |s| >= 4
    ensures pad <= 2
  {
    if |s| > 4 || s[3] != '=' then 0 else if s[2] == '=' then 2 else 1
  }

  function Decode64(s: string): Option<Bytes> {
    if s == "" then Some([])
    else if |s| < 4 then None
    else
      var quad, rest := DecodeQuad(s[..4], Padding(s)), Decode64(s[4..]);
      if quad.None? || rest.None? then None else Some(quad.value + rest.value)
  }

  lemma QuadRoundTrip(b: Bytes)
    requires 1 <= |b| <= 3
    ensures DecodeQuad(EncodeQuad(b), 3 - |b|) == Some(b)
  {
    var x, y, z := b[0], if |b| > 1 then b[1] else 0, if |b| > 2 then b[2] else 0;
    SextetsOfBytes(x, y, z);
    Char64Decodes(x / 4);
    Char64Decodes(x % 4 * 16 + y / 16);
    Char64Decodes(y % 16 * 4 + z / 64);
    Char64Decodes(z % 64);
    assert [x, y, z][..|b|] == b;
  }

  lemma QuadPadding(b: Bytes, rest: string)
    requires 1 <= |b| <= 3 && (|b| < 3 ==> rest == "")
    ensures Padding(EncodeQuad(b) + rest) == 3 - |b|
  {
    if |b| == 3 {
      Char64Decodes(b[2] % 64);
    } else if |b| == 2 {
      Char64Decodes(b[1] % 16 * 4);
    }
  }

  lemma DecodeJoin(q: string, rest: string)
    requires |q| == 4
    ensures var quad, tail := DecodeQuad(q, Padding(q + rest)), Decode64(rest);
            Decode64(q + rest) == if quad.None? || tail.None? then None else Some(quad.value + tail.value)
  {
    assert (q + rest)[..4] == q && (q + rest)[4..] == rest;
  }

  lemma DecodeHead(head: Bytes, rest: string, tail: Bytes)
    requires 1 <= |head| <= 3 && (|head| < 3 ==> rest == "")
    requires Decode64(rest) == Some(tail)
    ensures Decode64(EncodeQuad(head) + rest) == Some(head + tail)
  {
    QuadRoundTrip(head);
    QuadPadding(head, rest);
    DecodeJoin(EncodeQuad(head), rest);
  }

  /** Padded Base64 round-trips every byte string, in whole quads. */
  lemma {:induction false} Base64RoundTrip(b: Bytes)
    ensures Decode64(Encode64(b)) == Some(b)
  {
    if b != [] {
      var n := Min(3, |b|);
      Base64RoundTrip(b[n..]);
      DecodeHead(b[..n], Encode64(b[n..]), b[n..]);
      assert b[..n] + b[n..] == b;
    }
  }

  /** The test vectors of RFC 4648, section 10, and the two characters that are neither letters nor digits. */
  lemma Base64Vectors()
    ensures EncodeQuad([102]) == "Zg=="
    ensures EncodeQuad([102, 111]) == "Zm8="
    ensures EncodeQuad([102, 111, 111]) == "Zm9v"
    ensures EncodeQuad([98, 97, 114]) == "YmFy"
    ensures EncodeQuad([251, 255]) == "+/8="
  {
  }

  lemma {:induction false} Base64Length(b: Bytes)
    ensures |Encode64(b)| == (|b| + 2) / 3 * 4
  {
    if |b| > 3 {
      Base64Length(b[3..]);
    }
  }

  // ---------- Decimal integers ----------

  function Digits(n: nat): string {
    if n < 10 then ['0' + n as char] else Digits(n / 10) + ['0' + (n % 10) as char]
  }

  function ParseDigits(s: string): Option<nat> {
    if s == "" then None
    else if !('0' <= Last(s) <= '9') then None
    else
      var d := Last(s) as int - '0' as int;
      if |s| == 1 then Some(d)
      else
        var front := ParseDigits(Front(s));
        if front.None? then None else Some(front.value * 10 + d)
  }

  function IntText(n: int): string {
    if n < 0 then "-" + Digits(-n) else Digits(n)
  }

  function ParseInt(s: string): Option<int> {
    if s != "" && s[0] == '-' then
      var n := ParseDigits(s[1..]);
      if n.None? then None else Some(0 - n.value as int)
    else
      var n := ParseDigits(s);
      if n.None? then None else Some(n.value)
  }

  lemma {:induction false} DigitsRoundTrip(n: nat)
    ensures Digits(n) != "" && '0' <= Digits(n)[0] <= '9'
    ensures ParseDigits(Digits(n)) == Some(n)
  {
    if n >= 10 {
      DigitsRoundTrip(n / 10);
      assert Front(Digits(n)) == Digits(n / 10);
    }
  }

  lemma IntRoundTrip(n: int)
    ensures IntText(n) != "" && ParseInt(IntText(n)) == Some(n)
  {
    DigitsRoundTrip(if n < 0 then -n else n);
    if n < 0 {
      assert IntText(n)[1..] == Digits(-n);
    }
  }

  // ---------- The fields ----------

  /** The seven field names. */
  datatype Field = RequestId | Seq | Attempt | PcmB64 | Final | SentenceText | Error

  type Fields = map<Field, string>

  function OptionalFields(f: Field, v: Option<string>): Fields {
    if v.Some? then map[f := v.value] else map[]
  }

  function MainFields(r: TtsResult): Fields {
    map[
      RequestId := r.requestId,
      Seq := IntText(r.seqNo),
      Attempt := IntText(r.attempt),
      PcmB64 := Encode64(r.pcm),
      Final := if r.final then "true" else "false"
    ]
  }

  function EncodedFields(r: TtsResult): Fields {
    MainFields(r) + OptionalFields(SentenceText, r.sentence) + OptionalFields(Error, r.error)
  }

  /** `TtsResult.encode`. */
  method Encode(r: TtsResult) returns (out: Fields)
    ensures out == EncodedFields(r)
    ensures (SentenceText in out <==> r.sentence.Some?) && (Error in out <==> r.error.Some?)
    ensures Final in out && out[Final] == if r.final then "true" else "false"
  {
    out := map[
      RequestId := r.requestId,
      Seq := IntText(r.seqNo),
      Attempt := IntText(r.attempt),
      PcmB64 := Encode64(r.pcm),
      Final := if r.final then "true" else "false"
    ];
    if r.sentence.Some? {
      out := out[SentenceText := r.sentence.value];
    }
    if r.error.Some? {
      out := out[Error := r.error.value];
    }
  }

  /** `_get`: a missing field is None, an empty one is not. */
  function Get(fs: Fields, f: Field): Option<string> {
    if f in fs then Some(fs[f]) else None
  }

  /** `_get(f) or d`: the default replaces a missing or empty field. */
  function GetOr(fs: Fields, f: Field, d: string): string {
    if f in fs && fs[f] != "" then fs[f] else d
  }

  function Assemble(
    id: string, seqText: string, attemptText: string, pcmText: string, finalText: string,
    sentence: Option<string>, error: Option<string>
  ): Option<TtsResult> {
    var seqNo, attempt, pcm := ParseInt(seqText), ParseInt(attemptText), Decode64(pcmText);
    if seqNo.None? || attempt.None? || pcm.None? then None
    else Some(TtsResult(id, seqNo.value, pcm.value, sentence, finalText == "true", error, attempt.value))
  }

  /** `TtsResult.decode`; None when an integer or the audio is malformed. */
  function Decode(fs: Fields): Option<TtsResult> {
    Assemble(
      GetOr(fs, RequestId, ""), GetOr(fs, Seq, "0"), GetOr(fs, Attempt, "0"), GetOr(fs, PcmB64, ""),
      GetOr(fs, Final, "false"), Get(fs, SentenceText), Get(fs, Error))
  }

  lemma AssembleRoundTrip(r: TtsResult, finalText: string)
    requires finalText == "true" <==> r.final
    ensures Assemble(r.requestId, IntText(r.seqNo), IntText(r.attempt), Encode64(r.pcm), finalText, r.sentence, r.error)
         == Some(r)
  {
    IntRoundTrip(r.seqNo);
    IntRoundTrip(r.attempt);
    Base64RoundTrip(r.pcm);
  }

  // The optional fields do not disturb the others.
  lemma MainRead(r: TtsResult, f: Field, d: string)
    requires f in MainFields(r)
    ensures GetOr(EncodedFields(r), f, d) == if MainFields(r)[f] != "" then MainFields(r)[f] else d
  {
  }

  /** What the encoder writes, field by field. */
  lemma FieldsRead(r: TtsResult)
    ensures var fs := EncodedFields(r);
            && GetOr(fs, RequestId, "") == r.requestId
            && GetOr(fs, Seq, "0") == IntText(r.seqNo)
            && GetOr(fs, Attempt, "0") == IntText(r.attempt)
            && GetOr(fs, PcmB64, "") == Encode64(r.pcm)
            && (GetOr(fs, Final, "false") == "true" <==> r.final)
  {
    IntRoundTrip(r.seqNo);
    IntRoundTrip(r.attempt);
    MainRead(r, RequestId, "");
    MainRead(r, Seq, "0");
    MainRead(r, Attempt, "0");
    MainRead(r, PcmB64, "");
    MainRead(r, Final, "false");
    FinalRead(r.final);
  }

  lemma FinalRead(final: bool)
    ensures var text := if final then "true" else "false"; text != "" && (text == "true" <==> final)
  {
    assert "true"[0] == 't' && "false"[0] == 'f';
  }

  lemma OptionalRead(r: TtsResult)
    ensures Get(EncodedFields(r), SentenceText) == r.sentence
    ensures Get(EncodedFields(r), Error) == r.error
  {
  }

  /** Every chunk survives the wire, optional fields that are present but empty included. */
  lemma RoundTrip(r: TtsResult)
    ensures Decode(EncodedFields(r)) == Some(r)
  {
    FieldsRead(r);
    OptionalRead(r);
    AssembleRoundTrip(r, GetOr(EncodedFields(r), Final, "false"));
  }

  lemma RemoveReads(fs: Fields, gone: Field, f: Field, d: string)
    ensures f != gone ==> Get(fs - {gone}, f) == Get(fs, f) && GetOr(fs - {gone}, f, d) == GetOr(fs, f, d)
    ensures GetOr(fs - {gone}, gone, d) == d
  {
  }

  /** A chunk written before attempts travelled on the wire reads as attempt 0, and is otherwise intact. */
  lemma WithoutAttempt(r: TtsResult)
    ensures Decode(EncodedFields(r) - {Attempt}) == Some(r.(attempt := 0))
  {
    var fs := EncodedFields(r);
    FieldsRead(r);
    OptionalRead(r);
    RemoveReads(fs, Attempt, RequestId, "");
    RemoveReads(fs, Attempt, Seq, "0");
    RemoveReads(fs, Attempt, PcmB64, "");
    RemoveReads(fs, Attempt, Final, "false");
    RemoveReads(fs, Attempt, SentenceText, "");
    RemoveReads(fs, Attempt, Error, "");
    RemoveReads(fs, Attempt, Attempt, "0");
    assert IntText(0) == "0";
    AssembleRoundTrip(r.(attempt := 0), GetOr(fs, Final, "false"));
  }

  /** What a message without any field reads as. */
  lemma WithoutFields()
    ensures Decode(map[]) == Some(TtsResult("", 0, [], None, false, None, 0))
  {
    assert ParseDigits("0") == Some(0);
    assert "false"[0] != "true"[0];
  }

  /** Two different chunks never look alike on the wire. */
  lemma EncodeInjective(r: TtsResult, s: TtsResult)
    requires EncodedFields(r) == EncodedFields(s)
    ensures r == s
  {
    RoundTrip(r);
    RoundTrip(s);
  }
}
