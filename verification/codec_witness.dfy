/** The assumptions about serialization, text, keys and alert ids can be met, all of them at once: here are
    functions that meet them. They stand in for JSON, UTF-8, Fernet and hashing only to show that. */
module CodecWitness {
  import opened Collections
  import opened Alerts
  import Encryption
  import SealedAlerts

  // ---- printing and reading back ----

  function PrintNat(n: nat): string {
    if n == 0 then "0" else "1" + PrintNat(n - 1)
  }

  function ReadNat(s: string): (nat, string) {
    if s == "" then (0, "")
    else if s[0] != '1' then (0, s[1..])
    else
      var (n, rest) := ReadNat(s[1..]);
      (n + 1, rest)
  }

  lemma {:induction false} NatReadBack(n: nat, rest: string)
    ensures ReadNat(PrintNat(n) + rest) == (n, rest)
  {
    if n == 0 {
      assert ("0" + rest)[1..] == rest;
    } else {
      NatReadBack(n - 1, rest);
      assert PrintNat(n) + rest == "1" + (PrintNat(n - 1) + rest);
    }
  }

  function PrintInt(i: int): string {
    if i >= 0 then "+" + PrintNat(i) else "-" + PrintNat(-i)
  }

  function ReadInt(s: string): (int, string) {
    if s == "" then (0, "")
    else
      var (n, rest) := ReadNat(s[1..]);
      var size: int := n;
      (if s[0] == '-' then -size else size, rest)
  }

  lemma IntReadBack(i: int, rest: string)
    ensures ReadInt(PrintInt(i) + rest) == (i, rest)
  {
    var s := PrintInt(i) + rest;
    if i >= 0 {
      NatReadBack(i, rest);
      assert s[1..] == PrintNat(i) + rest;
    } else {
      NatReadBack(-i, rest);
      assert s[1..] == PrintNat(-i) + rest;
    }
  }

  function PrintString(s: string): string {
    PrintNat(|s|) + s
  }

  function ReadString(s: string): (string, string) {
    var (n, rest) := ReadNat(s);
    if n <= |rest| then (rest[..n], rest[n..]) else ("", rest)
  }

  lemma StringReadBack(s: string, rest: string)
    ensures ReadString(PrintString(s) + rest) == (s, rest)
  {
    NatReadBack(|s|, s + rest);
    assert PrintString(s) + rest == PrintNat(|s|) + (s + rest);
  }

  function PrintOption(o: Option<int>): string {
    match o
    case None => "0"
    case Some(i) => "1" + PrintInt(i)
  }

  function ReadOption(s: string): (Option<int>, string) {
    if s == "" then (None, "")
    else if s[0] == '0' then (None, s[1..])
    else
      var (i, rest) := ReadInt(s[1..]);
      (Some(i), rest)
  }

  lemma OptionReadBack(o: Option<int>, rest: string)
    ensures ReadOption(PrintOption(o) + rest) == (o, rest)
  {
    var s := PrintOption(o) + rest;
    if o.Some? {
      IntReadBack(o.value, rest);
      assert s[1..] == PrintInt(o.value) + rest;
    } else {
      assert s[1..] == rest;
    }
  }

  function PrintInts(xs: seq<int>): string {
    if xs == [] then "" else PrintInt(xs[0]) + PrintInts(xs[1..])
  }

  function ReadInts(s: string, n: nat): (seq<int>, string)
    decreases n
  {
    if n == 0 then ([], s)
    else
      var (x, more) := ReadInt(s);
      var (xs, rest) := ReadInts(more, n - 1);
      ([x] + xs, rest)
  }

  lemma {:induction false} IntsReadBack(xs: seq<int>, rest: string)
    ensures ReadInts(PrintInts(xs) + rest, |xs|) == (xs, rest)
    decreases |xs|
  {
    hide PrintInt, ReadInt;
    if xs == [] {
      assert PrintInts(xs) + rest == rest;
    } else {
      assert PrintInts(xs) + rest == PrintInt(xs[0]) + (PrintInts(xs[1..]) + rest);
      IntReadBack(xs[0], PrintInts(xs[1..]) + rest);
      IntsReadBack(xs[1..], rest);
      assert [xs[0]] + xs[1..] == xs;
    }
  }

  function PrintStrings(xs: seq<string>): string {
    if xs == [] then "" else PrintString(xs[0]) + PrintStrings(xs[1..])
  }

  function ReadStrings(s: string, n: nat): (seq<string>, string)
    decreases n
  {
    if n == 0 then ([], s)
    else
      var (x, more) := ReadString(s);
      var (xs, rest) := ReadStrings(more, n - 1);
      ([x] + xs, rest)
  }

  lemma {:induction false} StringsReadBack(xs: seq<string>, rest: string)
    ensures ReadStrings(PrintStrings(xs) + rest, |xs|) == (xs, rest)
    decreases |xs|
  {
    hide PrintString, ReadString;
    if xs == [] {
      assert PrintStrings(xs) + rest == rest;
    } else {
      assert PrintStrings(xs) + rest == PrintString(xs[0]) + (PrintStrings(xs[1..]) + rest);
      StringReadBack(xs[0], PrintStrings(xs[1..]) + rest);
      StringsReadBack(xs[1..], rest);
      assert [xs[0]] + xs[1..] == xs;
    }
  }

  // ---- alerts ----

  /** The alert's numbers, and the lengths of its two lists. */
  function Numbers(a: Alert): seq<int> {
    [a.id, a.decoy, a.count, a.firstSeen, a.lastSeen, a.severity, a.confidence, |a.evidence|, |a.events|]
  }

  function Options(a: Alert): seq<Option<int>> {
    [a.placement, a.correlation, a.bucket]
  }

  function PrintAlert(a: Alert): string {
    PrintInts(Numbers(a)) + (
    PrintOption(a.placement) + (PrintOption(a.correlation) + (PrintOption(a.bucket) + (
    PrintStrings([a.trace, a.key] + a.evidence) + (PrintInts(a.events))))))
  }

  function AsNat(i: int): nat {
    if i < 0 then 0 else i
  }

  function ReadAlert(s: string): Alert {
    var (n, s1) := ReadInts(s, 9);
    LengthOfRead(s, 9);
    var (placement, s2) := ReadOption(s1);
    var (correlation, s3) := ReadOption(s2);
    var (bucket, s4) := ReadOption(s3);
    var (texts, s5) := ReadStrings(s4, 2 + AsNat(n[7]));
    LengthOfTexts(s4, 2 + AsNat(n[7]));
    var (events, _) := ReadInts(s5, AsNat(n[8]));
    Alert(n[0], texts[0], n[1], placement, correlation, texts[1], bucket, n[2], n[3], n[4], n[5], n[6], texts[2..], events)
  }

  lemma LengthOfRead(s: string, n: nat)
    ensures |ReadInts(s, n).0| == n
    decreases n
  {
    if n > 0 {
      LengthOfRead(ReadInt(s).1, n - 1);
    }
  }

  lemma LengthOfTexts(s: string, n: nat)
    ensures |ReadStrings(s, n).0| == n
    decreases n
  {
    if n > 0 {
      LengthOfTexts(ReadString(s).1, n - 1);
    }
  }

  lemma AlertReadBack(a: Alert)
    ensures ReadAlert(PrintAlert(a)) == a
  {
    var events := PrintInts(a.events);
    var texts := PrintStrings([a.trace, a.key] + a.evidence) + events;
    var bucket := PrintOption(a.bucket) + texts;
    var correlation := PrintOption(a.correlation) + bucket;
    var placement := PrintOption(a.placement) + correlation;
    hide PrintInts, ReadInts, PrintOption, ReadOption, PrintStrings, ReadStrings;
    IntsReadBack(Numbers(a), placement);
    OptionReadBack(a.placement, correlation);
    OptionReadBack(a.correlation, bucket);
    OptionReadBack(a.bucket, texts);
    StringsReadBack([a.trace, a.key] + a.evidence, events);
    IntsReadBack(a.events, "");
    assert events + "" == events;
    assert ([a.trace, a.key] + a.evidence)[2..] == a.evidence;
  }

  // ---- text, keys and ids ----

  /** Three bytes a character. */
  function EncodeText(s: string): seq<Encryption.Byte> {
    if s == "" then []
    else [s[0] as int / 0x10000, s[0] as int / 0x100 % 0x100, s[0] as int % 0x100] + EncodeText(s[1..])
  }

  function DecodeText(bytes: seq<Encryption.Byte>): Option<string> {
    if bytes == [] then Some("")
    else if |bytes| < 3 then None
    else
      var high: int, middle: int, low: int := bytes[0], bytes[1], bytes[2];
      var code := high * 0x10000 + middle * 0x100 + low;
      var rest := DecodeText(bytes[3..]);
      if rest.None? || !(code < 0xD800 || 0xE000 <= code < 0x110000) then None
      else Some([code as char] + rest.value)
  }

  lemma ThreeBytes(code: int)
    requires 0 <= code < 0x110000
    ensures code / 0x10000 * 0x10000 + code / 0x100 % 0x100 * 0x100 + code % 0x100 == code
  {
  }

  lemma {:induction false} TextReadBack(s: string)
    ensures DecodeText(EncodeText(s)) == Some(s)
  {
    if s != "" {
      TextReadBack(s[1..]);
      assert EncodeText(s)[3..] == EncodeText(s[1..]);
      ThreeBytes(s[0] as int);
      assert [s[0]] + s[1..] == s;
    }
  }

  /** Text as a number, in a base larger than any character. */
  function Numbered(s: string): nat {
    if s == "" then 1 else Numbered(s[..|s| - 1]) * 0x110000 + s[|s| - 1] as int
  }

  lemma {:induction false} NumberedIsInjective(s: string, t: string)
    requires Numbered(s) == Numbered(t)
    ensures s == t
  {
    NumberedIsPositive(s);
    NumberedIsPositive(t);
    if s != "" && t != "" {
      var a, b := s[..|s| - 1], t[..|t| - 1];
      NumberedIsPositive(a);
      NumberedIsPositive(b);
      SameDigits(Numbered(a), s[|s| - 1] as int, Numbered(b), t[|t| - 1] as int);
      NumberedIsInjective(a, b);
      assert s == a + [s[|s| - 1]] && t == b + [t[|t| - 1]];
    }
  }

  lemma SameDigits(a: int, x: int, b: int, y: int)
    requires 0 <= x < 0x110000 && 0 <= y < 0x110000 && a * 0x110000 + x == b * 0x110000 + y
    ensures a == b && x == y
  {
  }

  lemma {:induction false} NumberedIsPositive(s: string)
    ensures Numbered(s) >= 1 && (s != "" ==> Numbered(s) >= 0x110000)
  {
    if s != "" {
      NumberedIsPositive(s[..|s| - 1]);
    }
  }

  function IdOf(org: OrgId, key: string, bucket: int): AlertId {
    Numbered(PrintInt(org) + (PrintString(key) + PrintInt(bucket)))
  }

  lemma IdsAreInjective()
    ensures Injective((o: OrgId, k: string, b: int) => IdOf(o, k, b))
  {
    forall o: OrgId, k: string, b: int, o': OrgId, k': string, b': int | IdOf(o, k, b) == IdOf(o', k', b')
      ensures o == o' && k == k' && b == b'
    {
      NumberedIsInjective(PrintInt(o) + (PrintString(k) + PrintInt(b)), PrintInt(o') + (PrintString(k') + PrintInt(b')));
      IntReadBack(o, PrintString(k) + PrintInt(b));
      IntReadBack(o', PrintString(k') + PrintInt(b'));
      StringReadBack(k, PrintInt(b));
      StringReadBack(k', PrintInt(b'));
      IntReadBack(b, "");
      IntReadBack(b', "");
      assert PrintInt(b) + "" == PrintInt(b) && PrintInt(b') + "" == PrintInt(b');
    }
  }

  function Text(): Encryption.Utf8 {
    Encryption.Utf8((s: string) => EncodeText(s), (bytes: seq<Encryption.Byte>) => DecodeText(bytes))
  }

  function Serialization(): SealedAlerts.Json {
    SealedAlerts.Json((a: Alert) => PrintAlert(a), (s: string) => ReadAlert(s))
  }

  function Key(): Encryption.Fernet {
    Encryption.Fernet((bytes: seq<Encryption.Byte>) => Encryption.Encode(bytes), (token: string) => Encryption.Decode(token))
  }

  lemma WitnessesAreFaithful()
    ensures Encryption.FaithfulText(Text()) && SealedAlerts.FaithfulJson(Serialization()) && Encryption.FaithfulKey(Key())
  {
    hide EncodeText, DecodeText, PrintAlert, ReadAlert;
    forall s ensures Text().decode(Text().encode(s)) == Some(s) {
      TextReadBack(s);
    }
    forall a ensures Serialization().validate(Serialization().dump(a)) == a {
      AlertReadBack(a);
    }
    forall bytes ensures Key().decrypt(Key().encrypt(bytes)) == Some(bytes) {
      Encryption.DecodeUndoesEncode(bytes);
    }
  }

  /** There are a serialization, a text encoding, a key and an id function that meet every assumption the alert
      and encryption results make, under both providers; so there is a faithful codec, whatever the size limit. */
  lemma AssumptionsCanBeMet(fits: Alert -> bool, digest: seq<Encryption.Nibble>)
    ensures exists utf8: Encryption.Utf8, json: SealedAlerts.Json, fernet: Encryption.Fernet ::
      && Encryption.FaithfulText(utf8) && SealedAlerts.FaithfulJson(json) && Encryption.FaithfulKey(fernet)
      && Faithful(SealedAlerts.CodecFor(Encryption.Noop, utf8, json, fits))
      && Faithful(SealedAlerts.CodecFor(Encryption.Local(fernet, digest), utf8, json, fits))
    ensures exists identity: Identity :: Injective(identity)
  {
    hide *;
    WitnessesAreFaithful();
    SealedAlerts.SealedCodecIsFaithful(Encryption.Noop, Text(), Serialization(), fits);
    SealedAlerts.SealedCodecIsFaithful(Encryption.Local(Key(), digest), Text(), Serialization(), fits);
    IdsAreInjective();
  }
}
