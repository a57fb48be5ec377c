/**
  The encryption envelope: the key configuration, and `version:iv:tag:ciphertext` with hex-encoded parts.  The cipher, the
  text encoding and the Base64 decoder are parameters; all that is known of them is `Lawful`.
*/
module Encryption {
  import opened Wrappers

  type byte = x: int | 0 <= x < 256

  type Bytes = seq<byte>

  datatype Sealed = Sealed(tag: Bytes, ciphertext: Bytes)

  /** `seal(key, iv, plain)` and `unseal(key, iv, sealed)`; `utf8` and `text` are the encoder and decoder of strings. */
  datatype Crypto = Crypto(
    seal: (Bytes, Bytes, Bytes) -> Sealed, unseal: (Bytes, Bytes, Sealed) -> Option<Bytes>,
    utf8: string -> Bytes, text: Bytes -> string, base64: string -> Bytes)

  ghost predicate Lawful(c: Crypto) {
    forall key, iv, plain :: c.unseal(key, iv, c.seal(key, iv, plain)) == Some(plain)
  }

  datatype Error = ConfigMissing | BadPair(pair: string) | BadKeyLength(version: string) | NoActiveKey | BadEnvelope | UnknownVersion(version: string) | Unauthentic

  datatype Result<+T> = Ok(value: T) | Err(error: Error)

  /* ---- splitting ---- */

  /** Never empty: a text without the separator is its own only part. */
  function Split(s: string, c: char): (parts: seq<string>)
    ensures |parts| >= 1
    ensures forall i | 0 <= i < |parts| :: c !in parts[i]
  {
    if s == "" then [""]
    else
      var rest := Split(s[1..], c);
      if s[0] == c then [""] + rest else [[s[0]] + rest[0]] + rest[1..]
  }

  lemma {:induction false} SplitJoined(a: string, c: char, b: string)
    ensures Split(a + [c] + b, c) == Split(a, c) + Split(b, c)
  {
    if a == "" {
      assert (a + [c] + b)[1..] == b;
    } else {
      assert (a + [c] + b)[1..] == a[1..] + [c] + b;
      SplitJoined(a[1..], c, b);
    }
  }

  lemma {:induction false} SplitWhole(a: string, c: char)
    requires c !in a
    ensures Split(a, c) == [a]
  {
    if a != "" {
      SplitWhole(a[1..], c);
      assert [a[0]] + a[1..] == a;
    }
  }

  /* ---- hexadecimal, as in section 8 of RFC 4648 with lower-case digits ---- */

  const Digits := "0123456789abcdef"

  function Hex(bytes: Bytes): string {
    if bytes == [] then "" else [Digits[bytes[0] / 16], Digits[bytes[0] % 16]] + Hex(bytes[1..])
  }

  function DigitValue(d: char): Option<int> {
    if '0' <= d <= '9' then Some(d as int - '0' as int)
    else if 'a' <= d <= 'f' then Some(d as int - 'a' as int + 10)
    else if 'A' <= d <= 'F' then Some(d as int - 'A' as int + 10)
    else None
  }

  /** Decoding stops at the first pair that is not two hex digits; a last odd digit is dropped. */
  function Unhex(s: string): Bytes {
    if |s| < 2 then []
    else
      match (DigitValue(s[0]), DigitValue(s[1]))
      case (Some(hi), Some(lo)) => [hi * 16 + lo] + Unhex(s[2..])
      case _ => []
  }

  lemma DigitRoundTrip(n: nat)
    requires n < 16
    ensures DigitValue(Digits[n]) == Some(n) && Digits[n] != ':'
  {
  }

  lemma {:induction false} HexRoundTrip(bytes: Bytes)
    ensures Unhex(Hex(bytes)) == bytes && ':' !in Hex(bytes) && |Hex(bytes)| == 2 * |bytes|
  {
    if bytes != [] {
      DigitRoundTrip(bytes[0] / 16);
      DigitRoundTrip(bytes[0] % 16);
      HexRoundTrip(bytes[1..]);
      assert Hex(bytes)[2..] == Hex(bytes[1..]);
    }
  }

  /** The test vector for "fo" in section 10 of RFC 4648, in lower case as written and in upper case as read. */
  lemma HexVector()
    ensures Hex([0x66, 0x6F]) == "666f" && Unhex("666F") == [0x66, 0x6F]
  {
    assert Hex([0x6F]) == "6f" && Unhex("6F") == [0x6F];
  }

  /* ---- the key configuration ---- */

  datatype KeyRing = KeyRing(keys: map<string, Bytes>, active: string)

  /** The first two parts around ':'; any further part is ignored. */
  predicate WellFormed(pair: string) {
    var parts := Split(pair, ':');
    |parts| >= 2 && parts[0] != "" && parts[1] != ""
  }

  function Version(pair: string): string {
    Split(pair, ':')[0]
  }

  function KeyBytes(c: Crypto, pair: string): Bytes {
    var parts := Split(pair, ':');
    if |parts| >= 2 then c.base64(parts[1]) else []
  }

  predicate GoodPair(c: Crypto, pair: string) {
    WellFormed(pair) && |KeyBytes(c, pair)| == 32
  }

  predicate Accepted(c: Crypto, config: string) {
    config != "" && forall i | 0 <= i < |Split(config, ',')| :: GoodPair(c, Split(config, ',')[i])
  }

  /** The key of the last pair with this version, if there is one. */
  function LastKey(c: Crypto, pairs: seq<string>, version: string): Option<Bytes> {
    if pairs == [] then None
    else if Version(pairs[|pairs| - 1]) == version then Some(KeyBytes(c, pairs[|pairs| - 1]))
    else LastKey(c, pairs[..|pairs| - 1], version)
  }

  function Lookup(keys: map<string, Bytes>, version: string): Option<Bytes> {
    if version in keys then Some(keys[version]) else None
  }

  /** The map holds the last key of every version, and nothing else. */
  ghost predicate KeysOf(c: Crypto, pairs: seq<string>, keys: map<string, Bytes>) {
    forall version :: Lookup(keys, version) == LastKey(c, pairs, version)
  }

  /** The ring a configuration means: its keys, and the first version as the active one. */
  ghost predicate RingOf(c: Crypto, config: string, ring: KeyRing) {
    var pairs := Split(config, ',');
    ring.active == Version(pairs[0]) && KeysOf(c, pairs, ring.keys)
  }

  lemma NoKeys(c: Crypto)
    ensures KeysOf(c, [], map[])
  {
  }

  lemma NextKey(c: Crypto, pairs: seq<string>, i: nat, keys: map<string, Bytes>)
    requires i < |pairs| && KeysOf(c, pairs[..i], keys)
    ensures KeysOf(c, pairs[..i + 1], keys[Version(pairs[i]) := KeyBytes(c, pairs[i])])
  {
    hide Version, KeyBytes;
    var longer := pairs[..i + 1];
    assert longer[..|longer| - 1] == pairs[..i] && longer[|longer| - 1] == pairs[i];
    forall version
      ensures Lookup(keys[Version(pairs[i]) := KeyBytes(c, pairs[i])], version) == LastKey(c, longer, version)
    {
      assert Lookup(keys, version) == LastKey(c, pairs[..i], version);
    }
  }

  lemma VersionGiven(pair: string)
    requires WellFormed(pair)
    ensures Version(pair) != ""
  {
  }

  /** A refused configuration is missing, or its first bad pair is malformed or has a key of another length. */
  predicate Refusal(c: Crypto, config: string, error: Error) {
    var pairs := Split(config, ',');
    if config == "" then error == ConfigMissing
    else exists i | 0 <= i < |pairs| ::
      && (forall k | 0 <= k < i :: GoodPair(c, pairs[k])) && !GoodPair(c, pairs[i])
      && error == if WellFormed(pairs[i]) then BadKeyLength(Version(pairs[i])) else BadPair(pairs[i])
  }

  method ParseKeys(c: Crypto, config: string) returns (r: Result<KeyRing>)
    ensures r.Ok? <==> Accepted(c, config)
    ensures r.Ok? ==> RingOf(c, config, r.value)
    ensures r.Err? ==> Refusal(c, config, r.error)
  {
    hide KeysOf, Version, KeyBytes, WellFormed;
    if config == "" {
      return Err(ConfigMissing);
    }
    var keys: map<string, Bytes> := map[];
    var firstVersion := "";
    var pairs := Split(config, ',');
    NoKeys(c);
    assert pairs[..0] == [];
    for i := 0 to |pairs|
      invariant forall k | 0 <= k < i :: GoodPair(c, pairs[k])
      invariant KeysOf(c, pairs[..i], keys)
      invariant firstVersion == if i == 0 then "" else Version(pairs[0])
    {
      var pair := pairs[i];
      if !WellFormed(pair) {
        return Err(BadPair(pair));
      }
      var version := Version(pair);
      if |KeyBytes(c, pair)| != 32 {
        return Err(BadKeyLength(version));
      }
      NextKey(c, pairs, i, keys);
      VersionGiven(pairs[0]);
      keys := keys[version := KeyBytes(c, pair)];
      if firstVersion == "" {
        firstVersion := version;
      }
    }
    assert pairs[..|pairs|] == pairs;
    r := Ok(KeyRing(keys, firstVersion));
  }

  /** A pair `version:key`, with or without further parts, is good exactly when neither is empty and the key decodes to 32 bytes. */
  lemma GoodPairIs(c: Crypto, version: string, key: string, more: string)
    requires ':' !in version && ':' !in key
    ensures GoodPair(c, version + ":" + key) <==> version != "" && key != "" && |c.base64(key)| == 32
    ensures GoodPair(c, version + ":" + key + ":" + more) <==> version != "" && key != "" && |c.base64(key)| == 32
    ensures Version(version + ":" + key + ":" + more) == version == Version(version + ":" + key)
    ensures KeyBytes(c, version + ":" + key + ":" + more) == c.base64(key) == KeyBytes(c, version + ":" + key)
    ensures !GoodPair(c, version)
  {
    hide Split;
    SplitWhole(version, ':');
    SplitWhole(key, ':');
    SplitJoined(version, ':', key);
    SplitJoined(key, ':', more);
    SplitJoined(version, ':', key + ":" + more);
    assert version + ":" + key + ":" + more == version + [':'] + (key + ":" + more);
  }

  /* ---- the envelope ---- */

  function Encrypt(c: Crypto, ring: KeyRing, iv: Bytes, plain: string): Result<string> {
    match Lookup(ring.keys, ring.active)
    case None => Err(NoActiveKey)
    case Some(key) =>
      var sealed := c.seal(key, iv, c.utf8(plain));
      Ok(ring.active + ":" + Hex(iv) + ":" + Hex(sealed.tag) + ":" + Hex(sealed.ciphertext))
  }

  function Decrypt(c: Crypto, ring: KeyRing, envelope: string): Result<string> {
    var parts := Split(envelope, ':');
    if |parts| != 4 then Err(BadEnvelope)
    else
      match Lookup(ring.keys, parts[0])
      case None => Err(UnknownVersion(parts[0]))
      case Some(key) =>
        match c.unseal(key, Unhex(parts[1]), Sealed(Unhex(parts[2]), Unhex(parts[3])))
        case None => Err(Unauthentic)
        case Some(bytes) => Ok(c.text(bytes))
  }

  lemma SplitFour(a: string, b: string, c: string, d: string)
    requires ':' !in a && ':' !in b && ':' !in c && ':' !in d
    ensures Split(a + ":" + b + ":" + c + ":" + d, ':') == [a, b, c, d]
  {
    hide Split;
    assert a + ":" + b + ":" + c + ":" + d == a + [':'] + (b + ":" + c + ":" + d);
    SplitJoined(a, ':', b + ":" + c + ":" + d);
    SplitJoined(b, ':', c + ":" + d);
    assert b + ":" + c + ":" + d == b + [':'] + (c + ":" + d);
    SplitJoined(c, ':', d);
    SplitWhole(a, ':');
    SplitWhole(b, ':');
    SplitWhole(c, ':');
    SplitWhole(d, ':');
  }

  /** Whatever ring shares the active key decrypts what this ring encrypted. */
  lemma SameKeyDecrypts(c: Crypto, ring: KeyRing, later: KeyRing, iv: Bytes, plain: string)
    requires Lawful(c) && ':' !in ring.active && ring.active in ring.keys
    requires Lookup(later.keys, ring.active) == Lookup(ring.keys, ring.active)
    ensures Encrypt(c, ring, iv, plain).Ok?
    ensures Decrypt(c, later, Encrypt(c, ring, iv, plain).value) == Ok(c.text(c.utf8(plain)))
  {
    hide Split, Hex, Unhex;
    var sealed := c.seal(ring.keys[ring.active], iv, c.utf8(plain));
    HexRoundTrip(iv);
    HexRoundTrip(sealed.tag);
    HexRoundTrip(sealed.ciphertext);
    SplitFour(ring.active, Hex(iv), Hex(sealed.tag), Hex(sealed.ciphertext));
  }

  lemma LastKeyAppend(c: Crypto, before: seq<string>, after: seq<string>, version: string)
    ensures LastKey(c, before + after, version) ==
      if LastKey(c, after, version).Some? then LastKey(c, after, version) else LastKey(c, before, version)
    decreases |after|
  {
    if after == [] {
      assert before + after == before;
    } else {
      assert (before + after)[..|before + after| - 1] == before + after[..|after| - 1];
      LastKeyAppend(c, before, after[..|after| - 1], version);
    }
  }

  lemma {:induction false} LastKeyExists(c: Crypto, pairs: seq<string>, i: nat)
    requires i < |pairs|
    ensures LastKey(c, pairs, Version(pairs[i])).Some?
  {
    if i < |pairs| - 1 { LastKeyExists(c, pairs[..|pairs| - 1], i); }
  }

  lemma ActiveIsUsable(c: Crypto, config: string, ring: KeyRing)
    requires RingOf(c, config, ring)
    ensures ':' !in ring.active && ring.active in ring.keys
  {
    LastKeyExists(c, Split(config, ','), 0);
    assert Lookup(ring.keys, ring.active).Some?;
  }

  /** For every accepted configuration and every plaintext, the empty one included, decryption undoes encryption. */
  lemma DecryptUndoesEncrypt(c: Crypto, config: string, ring: KeyRing, iv: Bytes, plain: string)
    requires Lawful(c) && Accepted(c, config) && RingOf(c, config, ring)
    ensures Encrypt(c, ring, iv, plain).Ok?
    ensures Decrypt(c, ring, Encrypt(c, ring, iv, plain).value) == Ok(c.text(c.utf8(plain)))
  {
    ActiveIsUsable(c, config, ring);
    SameKeyDecrypts(c, ring, ring, iv, plain);
  }

  /** It still does after any keys are put in front, even keys that reuse a version name: later pairs win. */
  lemma PrependedKeysDecrypt(c: Crypto, config: string, ring: KeyRing, more: string, later: KeyRing, iv: Bytes, plain: string)
    requires Lawful(c) && Accepted(c, config) && RingOf(c, config, ring)
    requires Accepted(c, more + "," + config) && RingOf(c, more + "," + config, later)
    ensures Encrypt(c, ring, iv, plain).Ok?
    ensures Decrypt(c, later, Encrypt(c, ring, iv, plain).value) == Ok(c.text(c.utf8(plain)))
  {
    hide Split, LastKey, Encrypt, Decrypt;
    ActiveIsUsable(c, config, ring);
    SplitJoined(more, ',', config);
    LastKeyAppend(c, Split(more, ','), Split(config, ','), ring.active);
    assert Lookup(ring.keys, ring.active).Some?;
    SameKeyDecrypts(c, ring, later, iv, plain);
  }

  /** Keys put behind keep old envelopes readable when none of them redefines the active version. */
  lemma AppendedKeysDecrypt(c: Crypto, config: string, ring: KeyRing, more: string, later: KeyRing, iv: Bytes, plain: string)
    requires Lawful(c) && Accepted(c, config) && RingOf(c, config, ring)
    requires Accepted(c, config + "," + more) && RingOf(c, config + "," + more, later)
    requires LastKey(c, Split(more, ','), ring.active) == None || LastKey(c, Split(more, ','), ring.active) == Lookup(ring.keys, ring.active)
    ensures later.active == ring.active
    ensures Encrypt(c, ring, iv, plain).Ok?
    ensures Decrypt(c, later, Encrypt(c, ring, iv, plain).value) == Ok(c.text(c.utf8(plain)))
  {
    hide Split, LastKey, Encrypt, Decrypt;
    ActiveIsUsable(c, config, ring);
    SplitJoined(config, ',', more);
    LastKeyAppend(c, Split(config, ','), Split(more, ','), ring.active);
    SameKeyDecrypts(c, ring, later, iv, plain);
  }

  function Joined(parts: seq<string>, c: char): string {
    if parts == [] then "" else if |parts| == 1 then parts[0] else parts[0] + [c] + Joined(parts[1..], c)
  }

  lemma {:induction false} JoinSplit(s: string, c: char)
    ensures Joined(Split(s, c), c) == s
  {
    if s != "" {
      var rest := Split(s[1..], c);
      JoinSplit(s[1..], c);
      assert s == [s[0]] + s[1..];
      if s[0] == c {
        assert Split(s, c)[1..] == rest;
      } else if |rest| > 1 {
        assert Split(s, c)[1..] == rest[1..];
      }
    }
  }

  /** `v:iv:tag:text`, none of the parts holding a colon. */
  predicate Spells(envelope: string, v: string, iv: string, tag: string, text: string) {
    ':' !in v && ':' !in iv && ':' !in tag && ':' !in text && envelope == v + ":" + iv + ":" + tag + ":" + text
  }

  predicate Opens(c: Crypto, ring: KeyRing, v: string, iv: string, tag: string, text: string) {
    v in ring.keys && c.unseal(ring.keys[v], Unhex(iv), Sealed(Unhex(tag), Unhex(text))).Some?
  }

  lemma FourParts(envelope: string)
    requires |Split(envelope, ':')| == 4
    ensures var p := Split(envelope, ':'); Spells(envelope, p[0], p[1], p[2], p[3])
  {
    hide Split;
    var p := Split(envelope, ':');
    JoinSplit(envelope, ':');
    assert p[1..][1..][1..] == [p[3]];
    assert Joined(p[1..][1..][1..], ':') == p[3];
    assert Joined(p[1..][1..], ':') == p[2] + ":" + p[3];
    assert Joined(p[1..], ':') == p[1] + ":" + (p[2] + ":" + p[3]);
    assert p[0] + ":" + (p[1] + ":" + (p[2] + ":" + p[3])) == p[0] + ":" + p[1] + ":" + p[2] + ":" + p[3];
  }

  /** An envelope is readable exactly when it has four parts, a known version, and parts the cipher authenticates. */
  lemma DecryptAccepts(c: Crypto, ring: KeyRing, envelope: string)
    ensures Decrypt(c, ring, envelope).Ok? <==>
      exists v, iv, tag, text :: Spells(envelope, v, iv, tag, text) && Opens(c, ring, v, iv, tag, text)
  {
    hide Split, Unhex, Spells;
    var parts := Split(envelope, ':');
    if |parts| == 4 { FourParts(envelope); }
    if v, iv, tag, text :| Spells(envelope, v, iv, tag, text) && Opens(c, ring, v, iv, tag, text) {
      SpellsSplit(envelope, v, iv, tag, text);
    }
  }

  /** And the refusals: not four parts, an unknown version, or parts the cipher does not authenticate. */
  lemma DecryptRefuses(c: Crypto, ring: KeyRing, envelope: string, v: string, iv: string, tag: string, text: string)
    ensures Spells(envelope, v, iv, tag, text) && v !in ring.keys ==> Decrypt(c, ring, envelope) == Err(UnknownVersion(v))
    ensures Spells(envelope, v, iv, tag, text) && v in ring.keys && !Opens(c, ring, v, iv, tag, text) ==>
      Decrypt(c, ring, envelope) == Err(Unauthentic)
    ensures (forall a, b, d, e :: !Spells(envelope, a, b, d, e)) ==> Decrypt(c, ring, envelope) == Err(BadEnvelope)
  {
    hide Split, Unhex, Spells;
    if Spells(envelope, v, iv, tag, text) { SpellsSplit(envelope, v, iv, tag, text); }
    if |Split(envelope, ':')| == 4 { FourParts(envelope); }
  }

  lemma SpellsSplit(envelope: string, v: string, iv: string, tag: string, text: string)
    requires Spells(envelope, v, iv, tag, text)
    ensures Split(envelope, ':') == [v, iv, tag, text]
  {
    SplitFour(v, iv, tag, text);
  }

  /** An envelope names the active version, and carries the nonce, the tag and the ciphertext in this order. */
  lemma EnvelopeIs(c: Crypto, ring: KeyRing, iv: Bytes, plain: string)
    requires ring.active in ring.keys
    ensures var sealed := c.seal(ring.keys[ring.active], iv, c.utf8(plain));
      Encrypt(c, ring, iv, plain) == Ok(ring.active + ":" + Hex(iv) + ":" + Hex(sealed.tag) + ":" + Hex(sealed.ciphertext))
  {
  }
}
