/** The self-describing envelope around sealed values, with base64url as in section 5 of RFC 4648. */
module Encryption {
  import opened Collections

  type Byte = b: int | 0 <= b < 256

  type Sextet = v: int | 0 <= v < 64

  // ---- base64url ----

  function Symbol(v: Sextet): char {
    if v < 26 then 'A' + v as char
    else if v < 52 then 'a' + (v - 26) as char
    else if v < 62 then '0' + (v - 52) as char
    else if v == 62 then '-'
    else '_'
  }

  /** The decoder first maps '-' and '_' to the symbols of the standard alphabet, so it accepts both. */
  function Value(c: char): Option<Sextet> {
    if 'A' <= c <= 'Z' then Some(c as int - 'A' as int)
    else if 'a' <= c <= 'z' then Some(c as int - 'a' as int + 26)
    else if '0' <= c <= '9' then Some(c as int - '0' as int + 52)
    else if c == '-' || c == '+' then Some(62)
    else if c == '_' || c == '/' then Some(63)
    else None
  }

  const PAD := '='

  /** The alphabet in order, as in table 2 of RFC 4648: A to Z, a to z, 0 to 9, minus and underline. */
  lemma SymbolsInOrder(v: Sextet)
    ensures v <= 25 ==> Symbol(v) as int == 65 + v
    ensures 26 <= v <= 51 ==> Symbol(v) as int == 97 + (v - 26)
    ensures 52 <= v <= 61 ==> Symbol(v) as int == 48 + (v - 52)
    ensures Symbol(62) == '-' && Symbol(63) == '_'
  {
  }

  /** Three bytes make four symbols; one or two left over make two or three, padded to four. */
  function Encode(bytes: seq<Byte>): string {
    if bytes == [] then ""
    else
      var first := Symbol(bytes[0] / 4);
      if |bytes| == 1 then [first] + ([Symbol(bytes[0] % 4 * 16)] + [PAD, PAD])
      else
        var second := Symbol(bytes[0] % 4 * 16 + bytes[1] / 16);
        if |bytes| == 2 then [first] + ([second] + ([Symbol(bytes[1] % 16 * 4)] + [PAD]))
        else
          [first] + ([second] + ([Symbol(bytes[1] % 16 * 4 + bytes[2] / 64)] + ([Symbol(bytes[2] % 64)] + Encode(bytes[3..]))))
  }

  /** Where the decoder stands inside a group of four symbols, and the bits it has not used yet. */
  datatype Group = Group(position: nat, left: nat, pads: nat)

  const FRESH := Group(0, 0, 0)

  ghost predicate Proper(g: Group) {
    g.position < 4 && g.left < (match g.position case 0 => 1 case 1 => 64 case 2 => 16 case _ => 4)
  }

  /** Foreign characters are skipped, a completed pad sequence ends the input, and ending inside a group is
      an error. */
  function DecodeFrom(s: string, g: Group, out: seq<Byte>): Option<seq<Byte>>
    requires Proper(g)
  {
    if s == "" then if g.position == 0 then Some(out) else None
    else if s[0] == PAD then
      if g.position >= 2 && g.position + g.pads + 1 >= 4 then Some(out)
      else DecodeFrom(s[1..], if g.position >= 2 then g.(pads := g.pads + 1) else g, out)
    else if Value(s[0]).None? then DecodeFrom(s[1..], g, out)
    else
      var v := Value(s[0]).value;
      if g.position == 0 then DecodeFrom(s[1..], Group(1, v, 0), out)
      else if g.position == 1 then DecodeFrom(s[1..], Group(2, v % 16, 0), out + [g.left * 4 + v / 16])
      else if g.position == 2 then DecodeFrom(s[1..], Group(3, v % 4, 0), out + [g.left * 16 + v / 4])
      else DecodeFrom(s[1..], FRESH, out + [g.left * 64 + v])
  }

  function Decode(s: string): Option<seq<Byte>> {
    DecodeFrom(s, FRESH, [])
  }

  lemma SymbolHasValue(v: Sextet)
    ensures Value(Symbol(v)) == Some(v) && Symbol(v) != PAD && Symbol(v) != ':'
  {
  }

  /** Reading one symbol at each position of a group. */
  lemma DecodeSymbol(v: Sextet, rest: string, g: Group, out: seq<Byte>)
    requires Proper(g)
    ensures g.position == 0 ==> DecodeFrom([Symbol(v)] + rest, g, out) == DecodeFrom(rest, Group(1, v, 0), out)
    ensures g.position == 1 ==>
      DecodeFrom([Symbol(v)] + rest, g, out) == DecodeFrom(rest, Group(2, v % 16, 0), out + [g.left * 4 + v / 16])
    ensures g.position == 2 ==>
      DecodeFrom([Symbol(v)] + rest, g, out) == DecodeFrom(rest, Group(3, v % 4, 0), out + [g.left * 16 + v / 4])
    ensures g.position == 3 ==> DecodeFrom([Symbol(v)] + rest, g, out) == DecodeFrom(rest, FRESH, out + [g.left * 64 + v])
  {
    SymbolHasValue(v);
    assert ([Symbol(v)] + rest)[1..] == rest;
  }

  lemma DecodeTwo(b0: Byte, v1: Sextet, rest: string, out: seq<Byte>)
    requires v1 / 16 == b0 % 4
    ensures DecodeFrom([Symbol(b0 / 4)] + ([Symbol(v1)] + rest), FRESH, out) == DecodeFrom(rest, Group(2, v1 % 16, 0), out + [b0])
  {
    hide Symbol, DecodeFrom;
    DecodeSymbol(b0 / 4, [Symbol(v1)] + rest, FRESH, out);
    DecodeSymbol(v1, rest, Group(1, b0 / 4, 0), out);
  }

  /** Two bits and four bits in one symbol. */
  lemma SplitBits(high: int, low: int)
    requires 0 <= high < 4 && 0 <= low < 16
    ensures 0 <= high * 16 + low < 64 && (high * 16 + low) / 16 == high && (high * 16 + low) % 16 == low
  {
  }

  lemma DecodeThree(b0: Byte, b1: Byte, v2: Sextet, rest: string, out: seq<Byte>)
    requires v2 / 4 == b1 % 16
    ensures var v1 := b0 % 4 * 16 + b1 / 16;
      DecodeFrom([Symbol(b0 / 4)] + ([Symbol(v1)] + ([Symbol(v2)] + rest)), FRESH, out)
        == DecodeFrom(rest, Group(3, v2 % 4, 0), out + [b0] + [b1])
  {
    var v1 := b0 % 4 * 16 + b1 / 16;
    hide Symbol, DecodeFrom;
    SplitBits(b0 % 4, b1 / 16);
    DecodeTwo(b0, v1, [Symbol(v2)] + rest, out);
    DecodeSymbol(v2, rest, Group(2, v1 % 16, 0), out + [b0]);
  }

  lemma DecodeFour(b0: Byte, b1: Byte, b2: Byte, rest: string, out: seq<Byte>)
    ensures var v1 := b0 % 4 * 16 + b1 / 16;
      var v2 := b1 % 16 * 4 + b2 / 64;
      DecodeFrom([Symbol(b0 / 4)] + ([Symbol(v1)] + ([Symbol(v2)] + ([Symbol(b2 % 64)] + rest))), FRESH, out)
        == DecodeFrom(rest, FRESH, out + [b0] + [b1] + [b2])
  {
    var v2 := b1 % 16 * 4 + b2 / 64;
    hide Symbol, DecodeFrom;
    DecodeThree(b0, b1, v2, [Symbol(b2 % 64)] + rest, out);
    DecodeSymbol(b2 % 64, rest, Group(3, v2 % 4, 0), out + [b0] + [b1]);
  }

  lemma DecodeTail(bytes: seq<Byte>, out: seq<Byte>)
    requires |bytes| < 3
    ensures DecodeFrom(Encode(bytes), FRESH, out) == Some(out + bytes)
  {
    hide Symbol;
    if bytes == [] {
      assert out + bytes == out;
    } else if |bytes| == 1 {
      DecodeTwo(bytes[0], bytes[0] % 4 * 16, [PAD, PAD], out);
      DecodePads(Group(2, 0, 0), out + [bytes[0]]);
      assert out + [bytes[0]] == out + bytes;
    } else {
      DecodeThree(bytes[0], bytes[1], bytes[1] % 16 * 4, [PAD], out);
      DecodePads(Group(3, 0, 0), out + [bytes[0]] + [bytes[1]]);
      assert out + [bytes[0]] + [bytes[1]] == out + bytes;
    }
  }

  lemma DecodePads(g: Group, out: seq<Byte>)
    requires Proper(g) && g.pads == 0
    ensures g.position == 2 ==> DecodeFrom([PAD, PAD], g, out) == Some(out)
    ensures g.position == 3 ==> DecodeFrom([PAD], g, out) == Some(out)
  {
    assert [PAD, PAD][1..] == [PAD];
  }

  lemma EncodeFour(bytes: seq<Byte>)
    requires |bytes| >= 3
    ensures var v1 := bytes[0] % 4 * 16 + bytes[1] / 16;
      var v2 := bytes[1] % 16 * 4 + bytes[2] / 64;
      Encode(bytes) == [Symbol(bytes[0] / 4)] + ([Symbol(v1)] + ([Symbol(v2)] + ([Symbol(bytes[2] % 64)] + Encode(bytes[3..]))))
  {
    hide Symbol;
  }

  lemma {:induction false} DecodeEncodedOnto(bytes: seq<Byte>, out: seq<Byte>)
    ensures DecodeFrom(Encode(bytes), FRESH, out) == Some(out + bytes)
    decreases |bytes|
  {
    hide Encode, DecodeFrom, Symbol;
    if |bytes| < 3 {
      DecodeTail(bytes, out);
    } else {
      EncodeFour(bytes);
      DecodeFour(bytes[0], bytes[1], bytes[2], Encode(bytes[3..]), out);
      DecodeEncodedOnto(bytes[3..], out + [bytes[0]] + [bytes[1]] + [bytes[2]]);
      assert out + [bytes[0]] + [bytes[1]] + [bytes[2]] + bytes[3..] == out + bytes;
    }
  }

  /** Decoding undoes encoding for every byte string. */
  lemma DecodeUndoesEncode(bytes: seq<Byte>)
    ensures Decode(Encode(bytes)) == Some(bytes)
  {
    DecodeEncodedOnto(bytes, []);
    assert [] + bytes == bytes;
  }

  /** The test vectors of section 10 of RFC 4648. */
  lemma TestVectors()
    ensures Encode([]) == "" && Encode([102]) == "Zg==" && Encode([102, 111]) == "Zm8=" && Encode([102, 111, 111]) == "Zm9v"
    ensures Encode([102, 111, 111, 98, 97, 114]) == "Zm9vYmFy"
  {
    EncodeRest(102, 111);
    EncodeThree(102, 111, 111, []);
    EncodeThree(98, 97, 114, []);
    EncodeThree(102, 111, 111, [98, 97, 114]);
    VectorSymbols();
    hide Encode, Symbol;
    assert [102, 111, 111] + [98, 97, 114] == [102, 111, 111, 98, 97, 114];
    assert [102, 111, 111] + [] == [102, 111, 111] && [98, 97, 114] + [] == [98, 97, 114];
  }

  lemma VectorSymbols()
    ensures [Symbol(102 / 4), Symbol(102 % 4 * 16), PAD, PAD] == "Zg=="
    ensures [Symbol(102 / 4), Symbol(102 % 4 * 16 + 111 / 16), Symbol(111 % 16 * 4), PAD] == "Zm8="
    ensures [Symbol(102 / 4), Symbol(102 % 4 * 16 + 111 / 16), Symbol(111 % 16 * 4 + 111 / 64), Symbol(111 % 64)] == "Zm9v"
    ensures [Symbol(98 / 4), Symbol(98 % 4 * 16 + 97 / 16), Symbol(97 % 16 * 4 + 114 / 64), Symbol(114 % 64)] == "YmFy"
  {
  }

  lemma EncodeThree(b0: Byte, b1: Byte, b2: Byte, rest: seq<Byte>)
    ensures Encode([b0, b1, b2] + rest) ==
      [Symbol(b0 / 4), Symbol(b0 % 4 * 16 + b1 / 16), Symbol(b1 % 16 * 4 + b2 / 64), Symbol(b2 % 64)] + Encode(rest)
  {
    hide Symbol;
    EncodeFour([b0, b1, b2] + rest);
    assert ([b0, b1, b2] + rest)[3..] == rest;
  }

  lemma EncodeRest(b0: Byte, b1: Byte)
    ensures Encode([]) == ""
    ensures Encode([b0]) == [Symbol(b0 / 4), Symbol(b0 % 4 * 16), PAD, PAD]
    ensures Encode([b0, b1]) == [Symbol(b0 / 4), Symbol(b0 % 4 * 16 + b1 / 16), Symbol(b1 % 16 * 4), PAD]
  {
    hide Symbol;
  }

  /** A character of the URL-safe alphabet, or the pad. */
  predicate UrlSafe(c: char) {
    c == PAD || (Value(c).Some? && c != '+' && c != '/')
  }

  lemma SymbolIsUrlSafe(v: Sextet)
    ensures UrlSafe(Symbol(v))
  {
  }

  /** The encoding is URL-safe, padded to whole groups, and free of the envelope's separator. */
  lemma {:induction false} EncodedIsUrlSafe(bytes: seq<Byte>)
    ensures |Encode(bytes)| == (|bytes| + 2) / 3 * 4
    ensures forall c :: c in Encode(bytes) ==> UrlSafe(c)
    ensures SEPARATOR !in Encode(bytes)
    decreases |bytes|
  {
    assert UrlSafe(PAD) && !UrlSafe(SEPARATOR);
    forall v: Sextet ensures UrlSafe(Symbol(v)) {
      SymbolIsUrlSafe(v);
    }
    hide Symbol, UrlSafe;
    if |bytes| >= 3 {
      EncodeFour(bytes);
      EncodedIsUrlSafe(bytes[3..]);
      hide Encode;
      assert (|bytes| + 2) / 3 == (|bytes[3..]| + 2) / 3 + 1;
    }
  }

  // ---- the envelope ----

  const SEPARATOR := ':'

  function Wrap(mode: string, version: string, payload: string): string {
    mode + [SEPARATOR] + (version + [SEPARATOR] + payload)
  }

  datatype Envelope = Envelope(mode: string, version: string, payload: string)

  function FirstSeparator(s: string): (i: nat)
    ensures i <= |s| && SEPARATOR !in s[..i] && (i < |s| ==> s[i] == SEPARATOR)
  {
    if s == "" || s[0] == SEPARATOR then 0 else 1 + FirstSeparator(s[1..])
  }

  /** Splitting at the first two separators; fewer than two is an error. */
  function Unwrap(token: string): Option<Envelope> {
    var i := FirstSeparator(token);
    if i == |token| then None
    else
      var rest := token[i + 1..];
      var j := FirstSeparator(rest);
      if j == |rest| then None else Some(Envelope(token[..i], rest[..j], rest[j + 1..]))
  }

  lemma SplitAtSeparator(first: string, rest: string)
    ensures var s := first + [SEPARATOR] + rest;
      FirstSeparator(s) == |first| <==> SEPARATOR !in first
    ensures FirstSeparator(first + [SEPARATOR] + rest) <= |first|
  {
    var s := first + [SEPARATOR] + rest;
    var i := FirstSeparator(s);
    assert s[|first|] == SEPARATOR;
    assert i <= |first| ==> s[..i] == first[..i];
    if i < |first| {
      assert first[i] == SEPARATOR;
    } else {
      assert first[..|first|] == first;
    }
  }

  /** An envelope is read back as written exactly when its mode and key version contain no separator; the
      payload may contain anything. */
  lemma UnwrapUndoesWrapIff(mode: string, version: string, payload: string)
    ensures Unwrap(Wrap(mode, version, payload)) == Some(Envelope(mode, version, payload)) <==>
      SEPARATOR !in mode && SEPARATOR !in version
  {
    var token := Wrap(mode, version, payload);
    var rest := version + [SEPARATOR] + payload;
    SplitAtSeparator(mode, rest);
    SplitAtSeparator(version, payload);
    if SEPARATOR !in mode {
      assert token[..|mode|] == mode && token[|mode| + 1..] == rest;
      if SEPARATOR !in version {
        assert rest[..|version|] == version && rest[|version| + 1..] == payload;
      }
    }
  }

  // ---- providers ----

  /** Text and its UTF-8 bytes. */
  datatype Utf8 = Utf8(encode: string -> seq<Byte>, decode: seq<Byte> -> Option<string>)

  ghost predicate FaithfulText(utf8: Utf8) {
    forall s :: utf8.decode(utf8.encode(s)) == Some(s)
  }

  /** Authenticated encryption under a fixed key: an arbitrary token, or nothing for a token it rejects. */
  datatype Fernet = Fernet(encrypt: seq<Byte> -> string, decrypt: string -> Option<seq<Byte>>)

  ghost predicate FaithfulKey(fernet: Fernet) {
    forall bytes :: fernet.decrypt(fernet.encrypt(bytes)) == Some(bytes)
  }

  type Nibble = v: int | 0 <= v < 16

  /** The key's digest, in hexadecimal digits. */
  datatype Provider = Noop | Local(fernet: Fernet, digest: seq<Nibble>)

  function HexDigit(n: int): char
    requires 0 <= n < 16
  {
    if n < 10 then '0' + n as char else 'a' + (n - 10) as char
  }

  /** "k" and the first twelve hexadecimal digits of the key's digest. */
  function KeyVersion(p: Provider): string {
    match p
    case Noop => "none"
    case Local(_, digest) =>
      "k" + seq(Min(12, |digest|), i requires 0 <= i < Min(12, |digest|) => HexDigit(digest[i]))
  }

  function Mode(p: Provider): string {
    if p.Noop? then "disabled" else "local"
  }

  function Encrypt(p: Provider, utf8: Utf8, plaintext: string): string {
    match p
    case Noop => Wrap(Mode(p), KeyVersion(p), Encode(utf8.encode(plaintext)))
    case Local(fernet, _) => Wrap(Mode(p), KeyVersion(p), fernet.encrypt(utf8.encode(plaintext)))
  }

  function Decrypt(p: Provider, utf8: Utf8, token: string): Option<string> {
    var envelope := Unwrap(token);
    if envelope.None? then None
    else
      var bytes := if p.Noop? then Decode(envelope.value.payload) else p.fernet.decrypt(envelope.value.payload);
      if bytes.None? then None else utf8.decode(bytes.value)
  }

  lemma HeaderHasNoSeparator(p: Provider)
    ensures SEPARATOR !in Mode(p) && SEPARATOR !in KeyVersion(p)
  {
    if p.Local? {
      forall n: Nibble ensures HexDigit(n) != SEPARATOR {
      }
      hide HexDigit;
      assert KeyVersion(p)[0] == 'k' && forall i :: 0 < i < |KeyVersion(p)| ==> KeyVersion(p)[i] == HexDigit(p.digest[i - 1]);
    }
  }

  /** Both providers give back what they were given, for every plaintext and key. */
  lemma DecryptUndoesEncrypt(p: Provider, utf8: Utf8, plaintext: string)
    requires FaithfulText(utf8) && (p.Local? ==> FaithfulKey(p.fernet))
    ensures Decrypt(p, utf8, Encrypt(p, utf8, plaintext)) == Some(plaintext)
  {
    var bytes := utf8.encode(plaintext);
    var payload := if p.Noop? then Encode(bytes) else p.fernet.encrypt(bytes);
    HeaderHasNoSeparator(p);
    hide Mode, KeyVersion, Wrap, Unwrap, Encode, Decode;
    UnwrapUndoesWrapIff(Mode(p), KeyVersion(p), payload);
    DecodeUndoesEncode(bytes);
  }

  /** An envelope spelled out: mode, key version and payload. */
  lemma EnvelopeIs(p: Provider, utf8: Utf8, plaintext: string)
    ensures p.Noop? ==> Encrypt(p, utf8, plaintext) == "disabled" + ":" + ("none" + ":" + Encode(utf8.encode(plaintext)))
    ensures p.Local? ==>
      Encrypt(p, utf8, plaintext) == "local" + ":" + (KeyVersion(p) + ":" + p.fernet.encrypt(utf8.encode(plaintext)))
  {
    if p.Noop? {
      WrapIs("disabled", "none", Encode(utf8.encode(plaintext)));
    } else {
      WrapIs("local", KeyVersion(p), p.fernet.encrypt(utf8.encode(plaintext)));
    }
    hide KeyVersion, Encode, Wrap;
  }

  lemma WrapIs(mode: string, version: string, payload: string)
    ensures Wrap(mode, version, payload) == mode + ":" + (version + ":" + payload)
  {
  }

  /** The key version is "k" and the digest's first twelve hexadecimal digits. */
  lemma KeyVersionIs(p: Provider)
    requires p.Local? && |p.digest| >= 12
    ensures |KeyVersion(p)| == 13 && KeyVersion(p)[0] == 'k'
    ensures forall i :: 0 <= i < 12 ==> KeyVersion(p)[i + 1] == "0123456789abcdef"[p.digest[i]]
  {
    forall i | 0 <= i < 12 ensures KeyVersion(p)[i + 1] == "0123456789abcdef"[p.digest[i]] {
      HexDigitIs(p.digest[i]);
    }
  }

  lemma HexDigitIs(n: Nibble)
    ensures HexDigit(n) == "0123456789abcdef"[n]
  {
  }

  // ---- sealed evidence ----

  function Seal(p: Provider, utf8: Utf8, serialized: string): string {
    Encrypt(p, utf8, serialized)
  }

  /** Rows written before encryption are plain JSON objects and are returned as they are. */
  function Unseal(p: Provider, utf8: Utf8, stored: string): Option<string> {
    if stored != "" && stored[0] == '{' then Some(stored) else Decrypt(p, utf8, stored)
  }

  /** Sealed text is never mistaken for a legacy row, even when the text itself looks like one. */
  lemma UnsealUndoesSeal(p: Provider, utf8: Utf8, serialized: string)
    requires FaithfulText(utf8) && (p.Local? ==> FaithfulKey(p.fernet))
    ensures Unseal(p, utf8, Seal(p, utf8, serialized)) == Some(serialized)
  {
    DecryptUndoesEncrypt(p, utf8, serialized);
    assert Seal(p, utf8, serialized)[0] == Mode(p)[0];
  }

  /** A legacy row is returned as it is, and only that: anything else is read as an envelope. */
  lemma LegacyRowsAreReturned(p: Provider, utf8: Utf8, rest: string, stored: string)
    ensures Unseal(p, utf8, "{" + rest) == Some("{" + rest)
    ensures (stored == "" || stored[0] != '{') ==> Unseal(p, utf8, stored) == Decrypt(p, utf8, stored)
  {
    assert ("{" + rest)[0] == '{';
  }
}
