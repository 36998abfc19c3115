/** The UTF-8 codec of sresar/toml.c, for codes up to 31 bits as in section 2 of RFC 2279.

    A byte is a `char` below 256.  The shifts and masks of the original select fields of six bits,
    which are quotients and remainders by powers of 64 here; `0x80 | x` on such a field is a sum. */
module CTomlUtf8 {
  import opened Wrappers

  const MAX_CODE: int := 0x7fff_ffff

  function Byte(n: int): (c: char)
    requires 0 <= n < 256
    ensures c as int == n
  {
    n as char
  }

  // ----- the table of RFC 2279 --------------------------------------------------------------

  /** The number of octets for a code. */
  function Octets(code: int): (n: nat)
    requires 0 <= code <= MAX_CODE
    ensures 1 <= n <= 6
  {
    if code <= 0x7f then 1
    else if code <= 0x7ff then 2
    else if code <= 0xffff then 3
    else if code <= 0x1f_ffff then 4
    else if code <= 0x3ff_ffff then 5
    else 6
  }

  /** The marker bits of the first of `n` octets, and one more than its greatest value. */
  function Lead(n: nat): int
    requires 1 <= n <= 6
  {
    match n
    case 1 => 0
    case 2 => 0xc0
    case 3 => 0xe0
    case 4 => 0xf0
    case 5 => 0xf8
    case _ => 0xfc
  }

  function LeadEnd(n: nat): int
    requires 1 <= n <= 6
  {
    match n
    case 1 => 0x80
    case 2 => 0xe0
    case 3 => 0xf0
    case 4 => 0xf8
    case 5 => 0xfc
    case _ => 0xfe
  }

  /** `code >> 6 * k`. */
  function High(code: int, k: nat): (h: int)
    requires code >= 0
    ensures h >= 0
  {
    if k == 0 then code else High(code, k - 1) / 64
  }

  /** Six bits of `code`, `k` fields from the right. */
  function Field(code: int, k: nat): (f: int)
    requires code >= 0
    ensures 0 <= f < 64
  {
    High(code, k) % 64
  }

  /** The last `k` octets of an encoding. */
  function Continuation(code: int, k: nat): (s: string)
    requires code >= 0
    ensures |s| == k
  {
    if k == 0 then "" else [Byte(0x80 + Field(code, k - 1))] + Continuation(code, k - 1)
  }

  predicate Legal(code: int) {
    0 <= code <= MAX_CODE && !(0xd800 <= code <= 0xdfff) && !(0xfffe <= code <= 0xffff)
  }

  lemma LeadFits(code: int)
    requires 0 <= code <= MAX_CODE
    ensures var n := Octets(code); Lead(n) + High(code, n - 1) < LeadEnd(n)
  {
    Shifts(code);
  }

  /** Shifting in one step is shifting field by field. */
  lemma Shifts(code: int)
    requires code >= 0
    ensures High(code, 0) == code && High(code, 1) == code / 0x40 && High(code, 2) == code / 0x1000
    ensures High(code, 3) == code / 0x4_0000 && High(code, 4) == code / 0x100_0000
    ensures High(code, 5) == code / 0x4000_0000
  {
    assert High(code, 2) == High(code, 1) / 64 && High(code, 3) == High(code, 2) / 64;
    assert High(code, 4) == High(code, 3) / 64 && High(code, 5) == High(code, 4) / 64;
  }

  /** toml_ucs_to_utf8: the octets of a legal code. */
  function Encode(code: int): (r: Option<string>)
    ensures r.Some? <==> Legal(code)
    ensures r.Some? ==> |r.value| == Octets(code)
  {
    if !Legal(code) then None
    else
      var n := Octets(code);
      LeadFits(code);
      Some([Byte(Lead(n) + High(code, n - 1))] + Continuation(code, n - 1))
  }

  /** The octets as the original writes them out, range by range. */
  function Written(code: int): (s: string)
    requires 0 <= code <= MAX_CODE
    ensures |s| == Octets(code)
  {
    if code <= 0x7f then [Byte(code)]
    else if code <= 0x7ff then [Byte(0xc0 + code / 0x40), Byte(0x80 + code % 0x40)]
    else if code <= 0xffff then
      [Byte(0xe0 + code / 0x1000), Byte(0x80 + code / 0x40 % 0x40), Byte(0x80 + code % 0x40)]
    else if code <= 0x1f_ffff then
      [Byte(0xf0 + code / 0x4_0000), Byte(0x80 + code / 0x1000 % 0x40), Byte(0x80 + code / 0x40 % 0x40),
       Byte(0x80 + code % 0x40)]
    else if code <= 0x3ff_ffff then
      [Byte(0xf8 + code / 0x100_0000), Byte(0x80 + code / 0x4_0000 % 0x40), Byte(0x80 + code / 0x1000 % 0x40),
       Byte(0x80 + code / 0x40 % 0x40), Byte(0x80 + code % 0x40)]
    else
      [Byte(0xfc + code / 0x4000_0000), Byte(0x80 + code / 0x100_0000 % 0x40), Byte(0x80 + code / 0x4_0000 % 0x40),
       Byte(0x80 + code / 0x1000 % 0x40), Byte(0x80 + code / 0x40 % 0x40), Byte(0x80 + code % 0x40)]
  }

  lemma WrittenOctet(code: int, i: nat)
    requires 0 <= code <= MAX_CODE && i < Octets(code)
    ensures var k := Octets(code) - 1 - i;
            Written(code)[i] as int == if i == 0 then Lead(Octets(code)) + High(code, k) else 0x80 + Field(code, k)
  {
    hide High;
    Shifts(code);
    var k := Octets(code) - 1 - i;
    if k == 0 {
    } else if k == 1 {
    } else if k == 2 {
    } else if k == 3 {
    } else if k == 4 {
    }
  }

  lemma WrittenIsEncoded(code: int)
    requires Legal(code)
    ensures Encode(code) == Some(Written(code))
  {
    hide Continuation, Encode, Written, High, Octets;
    EncodedOctets(code);
    var s := Encode(code).value;
    forall i | 0 <= i < |s| ensures s[i] == Written(code)[i] {
      WrittenOctet(code, i);
      assert s[i] as int == Written(code)[i] as int;
    }
    assert s == Written(code);
  }

  /** toml_ucs_to_utf8 into `buf` from `off` on; -1 for an illegal code. */
  method UcsToUtf8(code: int, buf: array<char>, off: nat) returns (n: int)
    requires off + 6 <= buf.Length
    modifies buf
    ensures match Encode(code)
            case None => n == -1 && buf[..] == old(buf[..])
            case Some(s) => n == |s| && buf[off..off + |s|] == s &&
                            buf[..off] == old(buf[..off]) && buf[off + |s|..] == old(buf[off + |s|..])
  {
    hide Encode;
    if 0xd800 <= code <= 0xdfff || 0xfffe <= code <= 0xffff || code < 0 || code > MAX_CODE {
      n := -1;
      return;
    }
    WrittenIsEncoded(code);
    if code <= 0x7f {
      buf[off] := Byte(code);
      n := 1;
    } else if code <= 0x7ff {
      buf[off], buf[off + 1] := Byte(0xc0 + code / 0x40), Byte(0x80 + code % 0x40);
      n := 2;
    } else if code <= 0xffff {
      buf[off], buf[off + 1], buf[off + 2] :=
        Byte(0xe0 + code / 0x1000), Byte(0x80 + code / 0x40 % 0x40), Byte(0x80 + code % 0x40);
      n := 3;
    } else {
      n := LongUcsToUtf8(code, buf, off);
    }
  }

  /** The last three cases. */
  method LongUcsToUtf8(code: int, buf: array<char>, off: nat) returns (n: nat)
    requires off + 6 <= buf.Length && 0xffff < code <= MAX_CODE
    modifies buf
    ensures n == |Written(code)| && forall i :: 0 <= i < n ==> buf[off + i] == Written(code)[i]
    ensures forall i :: 0 <= i < buf.Length && !(off <= i < off + n) ==> buf[i] == old(buf[i])
  {
    if code <= 0x1f_ffff {
      buf[off], buf[off + 1], buf[off + 2], buf[off + 3] :=
        Byte(0xf0 + code / 0x4_0000), Byte(0x80 + code / 0x1000 % 0x40), Byte(0x80 + code / 0x40 % 0x40),
        Byte(0x80 + code % 0x40);
      n := 4;
    } else if code <= 0x3ff_ffff {
      buf[off], buf[off + 1], buf[off + 2], buf[off + 3], buf[off + 4] :=
        Byte(0xf8 + code / 0x100_0000), Byte(0x80 + code / 0x4_0000 % 0x40), Byte(0x80 + code / 0x1000 % 0x40),
        Byte(0x80 + code / 0x40 % 0x40), Byte(0x80 + code % 0x40);
      n := 5;
    } else {
      buf[off], buf[off + 1], buf[off + 2], buf[off + 3], buf[off + 4], buf[off + 5] :=
        Byte(0xfc + code / 0x4000_0000), Byte(0x80 + code / 0x100_0000 % 0x40), Byte(0x80 + code / 0x4_0000 % 0x40),
        Byte(0x80 + code / 0x1000 % 0x40), Byte(0x80 + code / 0x40 % 0x40), Byte(0x80 + code % 0x40);
      n := 6;
    }
  }

  /** The octets one by one. */
  lemma EncodedOctets(code: int)
    requires Legal(code)
    ensures var s, n := Encode(code).value, Octets(code);
            s[0] as int == Lead(n) + High(code, n - 1) &&
            forall i :: 1 <= i < n ==> s[i] as int == 0x80 + Field(code, n - 1 - i)
  {
    var n := Octets(code);
    LeadFits(code);
    ContinuationOctets(code, n - 1);
  }

  lemma {:induction false} ContinuationOctets(code: int, k: nat)
    requires code >= 0
    ensures forall i :: 0 <= i < k ==> Continuation(code, k)[i] as int == 0x80 + Field(code, k - 1 - i)
  {
    if k > 0 {
      ContinuationOctets(code, k - 1);
    }
  }

  // ----- decoding -----------------------------------------------------------------------------

  /** The loop over `k` continuation bytes, with `v` read so far. */
  function DecodeTail(v: int, s: string, k: nat): (r: Option<int>)
    requires k <= |s| && v >= 0
    ensures r.Some? ==> r.value >= 0
    decreases k
  {
    if k == 0 then Some(v)
    else if s[0] as int / 64 != 2 then None
    else DecodeTail(64 * v + s[0] as int % 64, s[1..], k - 1)
  }

  /** How many bytes the first byte announces; 0 when it cannot be first. */
  function Announced(b: int): (n: nat)
    requires 0 <= b
    ensures n <= 6
  {
    if b / 0x80 == 0 then 1
    else if b / 0x20 == 0x6 then 2
    else if b / 0x10 == 0xe then 3
    else if b / 8 == 0x1e then 4
    else if b / 4 == 0x3e then 5
    else if b / 2 == 0x7e then 6
    else 0
  }

  /** toml_utf8_to_ucs on the bytes `s`: the code and the number of bytes consumed. */
  function Decode(s: string): (r: Option<(int, nat)>)
    ensures r.Some? ==> 1 <= r.value.1 <= |s| && r.value.0 >= 0
  {
    if s == "" then None
    else
      var b := s[0] as int;
      var n := Announced(b);
      if n == 0 || |s| < n then None
      else
        match DecodeTail(b - Lead(n), s[1..], n - 1)
        case None => None
        case Some(v) => Some((v, n))
  }

  /** The same, reading `buf` byte by byte. */
  method Utf8ToUcs(buf: array<char>, from: nat, len: nat) returns (code: int, n: int)
    requires from + len <= buf.Length
    ensures match Decode(buf[from..from + len])
            case None => n == -1
            case Some((v, k)) => code == v && n == k
  {
    hide Announced, Lead, DecodeTail;
    ghost var s := buf[from..from + len];
    code, n := 0, -1;
    if len < 1 {
      return;
    }
    var i := buf[from] as int;
    var count := Announced(i);
    if count == 0 || len < count {
      return;
    }
    AnnouncedLead(i);
    code := i - Lead(count);
    ghost var first := code;
    var j := 1;
    while j < count
      invariant 1 <= j <= count && code >= 0
      invariant DecodeTail(code, s[j..], count - j) == DecodeTail(first, s[1..], count - 1)
    {
      var b := buf[from + j] as int;
      assert s[j] as int == b && s[j..][1..] == s[j + 1..];
      TailRound(code, s[j..], count - j);
      if b / 64 != 2 {
        return;
      }
      code := 64 * code + b % 64;
      j := j + 1;
    }
    TailRound(code, s[count..], 0);
    n := count;
  }

  lemma TailRound(v: int, s: string, k: nat)
    requires k <= |s| && v >= 0
    ensures DecodeTail(v, s, k) == if k == 0 then Some(v) else if s[0] as int / 64 != 2 then None
                                   else DecodeTail(64 * v + s[0] as int % 64, s[1..], k - 1)
  {
  }

  lemma {:induction false} DecodeContinuation(code: int, k: nat, rest: string)
    requires code >= 0
    ensures DecodeTail(High(code, k), Continuation(code, k) + rest, k) == Some(code)
  {
    hide DecodeTail;
    var s := Continuation(code, k) + rest;
    TailRound(High(code, k), s, k);
    if k > 0 {
      var f := Field(code, k - 1);
      assert s[0] as int == 0x80 + f && s[1..] == Continuation(code, k - 1) + rest;
      assert (0x80 + f) / 64 == 2 && (0x80 + f) % 64 == f;
      DecodeContinuation(code, k - 1, rest);
    }
  }

  /** Decoding an encoded code gives it back, and consumes the bytes it produced. */
  lemma DecodeEncode(code: int, rest: string)
    requires Legal(code)
    ensures Decode(Encode(code).value + rest) == Some((code, |Encode(code).value|))
  {
    hide High, DecodeTail;
    var n := Octets(code);
    var s := Encode(code).value + rest;
    LeadFits(code);
    assert s[1..] == Continuation(code, n - 1) + rest;
    DecodeContinuation(code, n - 1, rest);
    assert Announced(s[0] as int) == n;
  }

  // ----- sequences of codes -------------------------------------------------------------------

  function EncodeAll(codes: seq<int>): string
    requires forall c :: c in codes ==> Legal(c)
  {
    if codes == [] then "" else Encode(codes[0]).value + EncodeAll(codes[1..])
  }

  /** Decode until the bytes are used up. */
  function DecodeAll(s: string): Option<seq<int>> {
    if s == "" then Some([])
    else
      match Decode(s)
      case None => None
      case Some((code, n)) =>
        match DecodeAll(s[n..])
        case None => None
        case Some(rest) => Some([code] + rest)
  }

  lemma {:induction false} DecodeAllEncodeAll(codes: seq<int>)
    requires forall c :: c in codes ==> Legal(c)
    ensures DecodeAll(EncodeAll(codes)) == Some(codes)
  {
    if codes != [] {
      hide Encode, Decode;
      assert forall c :: c in codes[1..] ==> c in codes;
      var e, rest := Encode(codes[0]).value, EncodeAll(codes[1..]);
      DecodeEncode(codes[0], rest);
      assert (e + rest)[|e|..] == rest;
      DecodeAllEncodeAll(codes[1..]);
      assert DecodeAll(e + rest) == Some([codes[0]] + codes[1..]);
      assert [codes[0]] + codes[1..] == codes;
    }
  }

  // ----- shortest forms -----------------------------------------------------------------------

  predicate IsBytes(s: string) {
    forall i :: 0 <= i < |s| ==> s[i] as int < 256
  }

  /** What the loop over continuation bytes reads has the given high bits, and those bytes as its low fields. */
  lemma {:induction false} DecodeTailFields(v: int, s: string, k: nat)
    requires k <= |s| && v >= 0 && DecodeTail(v, s, k).Some?
    ensures High(DecodeTail(v, s, k).value, k) == v
    ensures IsBytes(s) ==> s[..k] == Continuation(DecodeTail(v, s, k).value, k)
    decreases k
  {
    var w := DecodeTail(v, s, k).value;
    if k > 0 {
      var f := s[0] as int % 64;
      DecodeTailFields(64 * v + f, s[1..], k - 1);
      if IsBytes(s) {
        assert s[0] == Byte(0x80 + Field(w, k - 1));
        assert s[..k] == [s[0]] + s[1..][..k - 1];
      }
    }
  }

  /** Nothing shorter than the encoding decodes to a code, and what decodes to it in that length is the encoding. */
  lemma ShortestForm(s: string)
    requires IsBytes(s) && Decode(s).Some?
    ensures var (code, n) := Decode(s).value;
            code <= MAX_CODE && Octets(code) <= n &&
            (Encode(code) == Some(s[..n]) <==> Legal(code) && n == Octets(code))
  {
    hide Continuation, DecodeTail, Octets, Announced;
    var (code, n) := Decode(s).value;
    var v := s[0] as int - Lead(n);
    AnnouncedLead(s[0] as int);
    DecodeTailFields(v, s[1..], n - 1);
    CodeBound(code, n, v);
    if Legal(code) && n == Octets(code) {
      assert s[..n] == [s[0]] + s[1..][..n - 1];
    }
  }

  lemma AnnouncedLead(b: int)
    requires 0 <= b && Announced(b) > 0
    ensures Lead(Announced(b)) <= b < LeadEnd(Announced(b))
  {
  }

  lemma CodeBound(code: int, n: nat, v: int)
    requires 1 <= n <= 6 && 0 <= code && High(code, n - 1) == v < LeadEnd(n) - Lead(n)
    ensures code <= MAX_CODE && Octets(code) <= n
  {
    Shifts(code);
  }
}
