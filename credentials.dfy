/**
 * The credential vault: PayPal client id/secret pairs stored encrypted in the
 * `paypal_credentials` table, keyed by (environment, remark).
 *
 * A stored value is `hex(iv) ":" hex(ciphertext)` (Base16 per section 8 of RFC 4648,
 * lower-case). The cipher is AES-256-CBC with PKCS#7 padding, keyed by the first
 * 32 bytes of the UTF-8 encoding of a process-wide secret; here it is a parameter
 * (`Cipher`), and the round-trip is proved under the assumption that its decryption
 * inverts its encryption (`Inverse`).
 */
module Credentials {
  import opened Wrappers
  import opened Text
  import opened Common

  type Byte = b: int | 0 <= b < 256

  // ---------------------------------------------------------------------------------------------
  // Key derivation: Buffer.from(secret, 'utf-8').subarray(0, 32)

  /** The UTF-8 encoding of one Unicode scalar value. */
  function Utf8Char(c: char): (r: seq<Byte>)
    ensures 1 <= |r| <= 4
    ensures (c as int < 0x80) <==> |r| == 1
    ensures |r| == 1 ==> r[0] == c as int
  {
    var n := c as int;
    if n < 0x80 then [n]
    else if n < 0x800 then [0xC0 + n / 64, 0x80 + n % 64]
    else if n < 0x10000 then [0xE0 + n / 4096, 0x80 + (n / 64) % 64, 0x80 + n % 64]
    else [0xF0 + n / 262144, 0x80 + (n / 4096) % 64, 0x80 + (n / 64) % 64, 0x80 + n % 64]
  }

  /** The UTF-8 encoding of a string. */
  function Utf8(s: string): (r: seq<Byte>)
    ensures |s| <= |r| <= 4 * |s|
  {
    if |s| == 0 then [] else Utf8Char(s[0]) + Utf8(s[1..])
  }

  predicate IsAscii(s: string) {
    forall i :: 0 <= i < |s| ==> s[i] as int < 0x80
  }

  /** An ASCII string encodes to one byte per character, each its code point. */
  lemma {:induction false} Utf8OfAscii(s: string)
    requires IsAscii(s)
    ensures |Utf8(s)| == |s|
    ensures forall i :: 0 <= i < |s| ==> Utf8(s)[i] == s[i] as int
  {
    if |s| > 0 {
      Utf8OfAscii(s[1..]);
      assert Utf8(s) == [s[0] as int] + Utf8(s[1..]);
    }
  }

  /** The key used when the `EncryptionKey` secret is not configured. */
  const DevelopmentKey := "development-encryption-key-change-in-production-32char"

  /** The configured secret, or the development default when reading the secret throws. */
  function EncryptionKey(configured: Option<string>): string {
    match configured
    case Some(k) => k
    case None => DevelopmentKey
  }

  /** AES-256 takes a key of exactly this many bytes. */
  const KeyLength := 32
  /** CBC takes an IV of exactly this many bytes; `randomBytes(16)` always provides one. */
  const IvLength := 16

  /** The first min(32, |utf8(secret)|) bytes of the secret. */
  function CipherKey(secret: string): (k: seq<Byte>)
    ensures |k| == Min(KeyLength, |Utf8(secret)|)
    ensures k == Utf8(secret)[..|k|]
  {
    var u := Utf8(secret);
    u[..Min(KeyLength, |u|)]
  }

  /** Without a configured secret the key is 32 bytes long, so encryption can proceed. */
  lemma DevelopmentCipherKey()
    ensures |CipherKey(EncryptionKey(None))| == KeyLength
  {
  }

  /** A configured ASCII secret shorter than 32 characters yields a key AES-256 rejects. */
  lemma ShortAsciiSecretRejected(secret: string)
    requires IsAscii(secret) && |secret| < KeyLength
    ensures |CipherKey(secret)| == |secret| < KeyLength
  {
    Utf8OfAscii(secret);
  }

  // ---------------------------------------------------------------------------------------------
  // Hex framing: Buffer#toString('hex') and Buffer.from(text, 'hex')

  const HexDigits := "0123456789abcdef"

  function HexByte(b: Byte): (r: string)
    ensures |r| == 2
  {
    [HexDigits[b / 16], HexDigits[b % 16]]
  }

  /** Lower-case Base16 of a byte string, two characters per byte. */
  function HexEncode(bytes: seq<Byte>): (r: string)
    ensures |r| == 2 * |bytes|
  {
    if |bytes| == 0 then "" else HexByte(bytes[0]) + HexEncode(bytes[1..])
  }

  predicate IsHexChar(c: char) {
    DigitValue(c) < 16
  }

  /**
   * `Buffer.from(text, 'hex')`: reads pairs of hex digits (either case) from the front and
   * stops at the first pair that is not two hex digits, or at a final lone digit.
   */
  function HexDecode(text: string): (r: seq<Byte>)
    ensures 2 * |r| <= |text|
  {
    if |text| < 2 || !IsHexChar(text[0]) || !IsHexChar(text[1]) then []
    else [DigitValue(text[0]) * 16 + DigitValue(text[1])] + HexDecode(text[2..])
  }

  lemma HexByteDecodes(b: Byte)
    ensures IsHexChar(HexByte(b)[0]) && IsHexChar(HexByte(b)[1])
    ensures DigitValue(HexByte(b)[0]) * 16 + DigitValue(HexByte(b)[1]) == b
  {
    var hi, lo := b / 16, b % 16;
    assert DigitValue(HexDigits[hi]) == hi by {
      assert HexDigits == ['0','1','2','3','4','5','6','7','8','9','a','b','c','d','e','f'];
    }
    assert DigitValue(HexDigits[lo]) == lo by {
      assert HexDigits == ['0','1','2','3','4','5','6','7','8','9','a','b','c','d','e','f'];
    }
  }

  lemma HexDecodeCons(pair: string, rest: string)
    requires |pair| == 2 && IsHexChar(pair[0]) && IsHexChar(pair[1])
    ensures HexDecode(pair + rest) == [DigitValue(pair[0]) * 16 + DigitValue(pair[1])] + HexDecode(rest)
  {
    var t := pair + rest;
    assert t[0] == pair[0] && t[1] == pair[1] && t[2..] == rest;
  }

  /** The two hex digits of a byte, followed by anything, decode to that byte first. */
  lemma HexPairDecodes(b: Byte, rest: string)
    ensures HexDecode(HexByte(b) + rest) == [b] + HexDecode(rest)
  {
    HexByteDecodes(b);
    HexDecodeCons(HexByte(b), rest);
  }

  /** Decoding the hex of a byte string gives the bytes back. */
  lemma {:induction false} HexRoundTrip(bytes: seq<Byte>)
    ensures HexDecode(HexEncode(bytes)) == bytes
  {
    if |bytes| > 0 {
      HexPairDecodes(bytes[0], HexEncode(bytes[1..]));
      HexRoundTrip(bytes[1..]);
      assert [bytes[0]] + bytes[1..] == bytes;
    }
  }

  /** Hex text never contains the ':' that separates the IV from the ciphertext. */
  lemma {:induction false} HexHasNoSeparator(bytes: seq<Byte>)
    ensures ':' !in HexEncode(bytes)
  {
    if |bytes| > 0 {
      HexHasNoSeparator(bytes[1..]);
      var h := HexByte(bytes[0]);
      assert h[0] in HexDigits && h[1] in HexDigits;
      assert HexEncode(bytes) == h + HexEncode(bytes[1..]);
    }
  }

  // ---------------------------------------------------------------------------------------------
  // The cipher, as a parameter

  /**
   * AES-256-CBC with PKCS#7 padding, applied to the UTF-8 bytes of the plain text:
   * `encrypt(key, iv, plain)` is the ciphertext; `decrypt(key, iv, ciphertext)` is None
   * when `decipher.final` rejects the padding.
   */
  datatype Cipher = Cipher(
    encrypt: (seq<Byte>, seq<Byte>, string) -> seq<Byte>,
    decrypt: (seq<Byte>, seq<Byte>, seq<Byte>) -> Option<string>)

  /** Decryption with the same 32-byte key and 16-byte IV undoes encryption. */
  ghost predicate Inverse(c: Cipher) {
    forall key, iv, plain ::
      |key| == KeyLength && |iv| == IvLength ==> c.decrypt(key, iv, c.encrypt(key, iv, plain)) == Some(plain)
  }

  /** PKCS#7 always emits at least one block, so an empty ciphertext never decrypts. */
  ghost predicate RejectsEmpty(c: Cipher) {
    forall key, iv :: c.decrypt(key, iv, []) == None
  }

  /** Where the secret comes from and which cipher is used. */
  datatype Keyring = Keyring(configured: Option<string>, cipher: Cipher)

  /** The stored form of a ciphertext. */
  function Frame(iv: seq<Byte>, ciphertext: seq<Byte>): string {
    HexEncode(iv) + ":" + HexEncode(ciphertext)
  }

  /** `text.split(':')`: the first part is the IV text, the other parts are joined back with ':'. */
  function ParsePayload(text: string): (r: (string, string))
    ensures ':' !in r.0
    ensures ':' !in text ==> r == (text, "")
    ensures ':' in text ==> |r.0| < |text| && text == r.0 + ":" + r.1
  {
    var parts := Split(text, ':');
    JoinSplit(text, ':');
    (parts[0], Join(parts[1..], ':'))
  }

  /** The stored form parses back into the hex of its IV and the hex of its ciphertext. */
  lemma ParseFrame(iv: seq<Byte>, ciphertext: seq<Byte>)
    ensures ParsePayload(Frame(iv, ciphertext)) == (HexEncode(iv), HexEncode(ciphertext))
  {
    var a, b := HexEncode(iv), HexEncode(ciphertext);
    HexHasNoSeparator(iv);
    SplitAtFirst(a, ':', b);
    assert Frame(iv, ciphertext) == a + [':'] + b;
    assert ([a] + Split(b, ':'))[1..] == Split(b, ':');
    JoinSplit(b, ':');
  }

  /** `encrypt(text)` with the IV that `randomBytes(16)` produced. */
  function Encrypt(plain: string, keyring: Keyring, iv: seq<Byte>): (r: Result<string>)
    requires |iv| == IvLength
    ensures r.Ok? <==> |CipherKey(EncryptionKey(keyring.configured))| == KeyLength
    ensures r.Ok? ==> |r.value| >= 2 * IvLength + 1 && r.value[..2 * IvLength] == HexEncode(iv)
                      && r.value[2 * IvLength] == ':'
  {
    var key := CipherKey(EncryptionKey(keyring.configured));
    if |key| != KeyLength then Err(Internal("Invalid key length"))
    else Ok(Frame(iv, keyring.cipher.encrypt(key, iv, plain)))
  }

  /**
   * `decrypt(text)`: split at the first ':', hex-decode both parts, decipher. `createDecipheriv`
   * checks the IV length before the key length; `decipher.update(…, 'hex')` then refuses a
   * ciphertext text of odd length before deciphering anything.
   */
  function Decrypt(text: string, keyring: Keyring): (r: Result<string>)
    ensures r.Err? ==> r.error.Internal?
    ensures |HexDecode(ParsePayload(text).0)| != IvLength ==> r == Err(Internal("Invalid initialization vector"))
    ensures |HexDecode(ParsePayload(text).0)| == IvLength && |CipherKey(EncryptionKey(keyring.configured))| != KeyLength
            ==> r == Err(Internal("Invalid key length"))
    ensures (&& |HexDecode(ParsePayload(text).0)| == IvLength
             && |CipherKey(EncryptionKey(keyring.configured))| == KeyLength
             && |ParsePayload(text).1| % 2 != 0) ==> r == Err(Internal("Invalid hex encoding"))
  {
    DecryptParts(ParsePayload(text).0, ParsePayload(text).1, keyring)
  }

  /** The steps of `decrypt` after the split: the decipher's checks, then deciphering. */
  function DecryptParts(ivText: string, body: string, keyring: Keyring): Result<string>
  {
    var key := CipherKey(EncryptionKey(keyring.configured));
    var iv := HexDecode(ivText);
    if |iv| != IvLength then Err(Internal("Invalid initialization vector"))
    else if |key| != KeyLength then Err(Internal("Invalid key length"))
    else if |body| % 2 != 0 then Err(Internal("Invalid hex encoding"))
    else match keyring.cipher.decrypt(key, iv, HexDecode(body))
      case None => Err(Internal("bad decrypt"))
      case Some(plain) => Ok(plain)
  }

  /** Hex text always has an even length, so `decipher.update` accepts it. */
  lemma HexEncodeEven(bytes: seq<Byte>)
    ensures |HexEncode(bytes)| % 2 == 0
  {
    var n := |bytes|;
    assert |HexEncode(bytes)| == n + n;
  }

  /** decrypt(encrypt(p)) == p whenever encryption succeeded and the cipher is invertible. */
  lemma DecryptEncrypt(plain: string, keyring: Keyring, iv: seq<Byte>)
    requires |iv| == IvLength && Inverse(keyring.cipher)
    requires Encrypt(plain, keyring, iv).Ok?
    ensures Decrypt(Encrypt(plain, keyring, iv).value, keyring) == Ok(plain)
  {
    var key := CipherKey(EncryptionKey(keyring.configured));
    var ciphertext := keyring.cipher.encrypt(key, iv, plain);
    assert Encrypt(plain, keyring, iv).value == Frame(iv, ciphertext);
    var ivText, body := HexEncode(iv), HexEncode(ciphertext);
    ParseFrame(iv, ciphertext);
    HexRoundTrip(iv);
    HexRoundTrip(ciphertext);
    HexEncodeEven(ciphertext);
    assert keyring.cipher.decrypt(key, iv, ciphertext) == Some(plain);
    assert DecryptParts(ivText, body, keyring) == Ok(plain);
  }

  /** Two encryptions with different IVs store different texts, even for the same plain text. */
  lemma DistinctIvsDistinctPayloads(p1: string, p2: string, keyring: Keyring, iv1: seq<Byte>, iv2: seq<Byte>)
    requires |iv1| == IvLength && |iv2| == IvLength && iv1 != iv2
    requires Encrypt(p1, keyring, iv1).Ok?
    ensures Encrypt(p1, keyring, iv1) != Encrypt(p2, keyring, iv2)
  {
    HexRoundTrip(iv1);
    HexRoundTrip(iv2);
  }

  /** A stored text without ':' has an empty ciphertext part and so never decrypts. */
  lemma DecryptWithoutSeparatorFails(text: string, keyring: Keyring)
    requires ':' !in text && RejectsEmpty(keyring.cipher)
    ensures Decrypt(text, keyring).Err?
  {
    SplitWithoutSeparator(text, ':');
  }

  // ---------------------------------------------------------------------------------------------
  // The paypal_credentials table

  datatype CredentialRow = CredentialRow(
    id: nat, userId: int, environment: Environment,
    clientIdEncrypted: string, clientSecretEncrypted: string,
    remark: string, createdAt: int, updatedAt: int)

  /** The UNIQUE (environment, remark) constraint and the primary key. */
  ghost predicate Keyed(rows: seq<CredentialRow>, nextId: nat) {
    && (forall i :: 0 <= i < |rows| ==> rows[i].id < nextId)
    && (forall i, j :: 0 <= i < j < |rows| ==> rows[i].id != rows[j].id)
    && (forall i, j :: 0 <= i < j < |rows| ==>
          rows[i].environment != rows[j].environment || rows[i].remark != rows[j].remark)
  }

  datatype SaveRequest = SaveRequest(environment: Environment, clientId: string, clientSecret: string, remark: string)

  /** The checks `saveCredentials` makes before it writes anything, in order. */
  function ValidateSave(req: SaveRequest): (r: Outcome)
    ensures r.Pass? <==> !AllSpace(req.clientId) && !AllSpace(req.clientSecret) && !AllSpace(req.remark)
    ensures (AllSpace(req.clientId) || AllSpace(req.clientSecret)) ==>
              r == Fail(InvalidArgument("Client ID and Client Secret are required"))
    ensures !AllSpace(req.clientId) && !AllSpace(req.clientSecret) && AllSpace(req.remark) ==>
              r == Fail(InvalidArgument("Remark is required"))
  {
    TrimEmptyIffAllSpace(req.clientId);
    TrimEmptyIffAllSpace(req.clientSecret);
    TrimEmptyIffAllSpace(req.remark);
    if Trim(req.clientId) == "" || Trim(req.clientSecret) == "" then
      Fail(InvalidArgument("Client ID and Client Secret are required"))
    else if Trim(req.remark) == "" then Fail(InvalidArgument("Remark is required"))
    else Pass
  }

  /** The position of the row holding (environment, remark), if any. */
  function FindPair(rows: seq<CredentialRow>, env: Environment, remark: string): (r: Option<nat>)
    ensures r.Some? ==> r.value < |rows| && rows[r.value].environment == env && rows[r.value].remark == remark
    ensures r.None? ==> forall i :: 0 <= i < |rows| ==> rows[i].environment != env || rows[i].remark != remark
  {
    if |rows| == 0 then None
    else if rows[0].environment == env && rows[0].remark == remark then Some(0)
    else match FindPair(rows[1..], env, remark)
      case None => None
      case Some(i) => Some(i + 1)
  }

  /**
   * `INSERT … ON CONFLICT (environment, remark) DO UPDATE SET client_id_encrypted, client_secret_encrypted,
   * updated_at`: a new row gets the next id and `now` as both timestamps; a conflicting row keeps its id,
   * owner, remark and creation time.
   */
  function Upsert(rows: seq<CredentialRow>, nextId: nat, userId: int, env: Environment,
                  idEnc: string, secretEnc: string, remark: string, now: int): (r: seq<CredentialRow>)
    requires Keyed(rows, nextId)
    ensures Keyed(r, nextId + 1)
    ensures FindPair(rows, env, remark).None? ==>
              r == rows + [CredentialRow(nextId, userId, env, idEnc, secretEnc, remark, now, now)]
    ensures FindPair(rows, env, remark).Some? ==>
              var i := FindPair(rows, env, remark).value;
              && |r| == |rows|
              && r[i] == rows[i].(clientIdEncrypted := idEnc, clientSecretEncrypted := secretEnc, updatedAt := now)
              && forall j :: 0 <= j < |rows| && j != i ==> r[j] == rows[j]
  {
    match FindPair(rows, env, remark)
    case None => rows + [CredentialRow(nextId, userId, env, idEnc, secretEnc, remark, now, now)]
    case Some(i) =>
      rows[i := rows[i].(clientIdEncrypted := idEnc, clientSecretEncrypted := secretEnc, updatedAt := now)]
  }

  /** After any upsert, (environment, remark) names exactly one row. */
  lemma UpsertNamesOneRow(rows: seq<CredentialRow>, nextId: nat, userId: int, env: Environment,
                          idEnc: string, secretEnc: string, remark: string, now: int)
    requires Keyed(rows, nextId)
    ensures var r := Upsert(rows, nextId, userId, env, idEnc, secretEnc, remark, now);
            && FindPair(r, env, remark).Some?
            && r[FindPair(r, env, remark).value].clientIdEncrypted == idEnc
            && r[FindPair(r, env, remark).value].clientSecretEncrypted == secretEnc
            && |r| == |rows| + (if FindPair(rows, env, remark).Some? then 0 else 1)
  {
    var r := Upsert(rows, nextId, userId, env, idEnc, secretEnc, remark, now);
    var i := if FindPair(rows, env, remark).Some? then FindPair(rows, env, remark).value else |rows|;
    assert r[i].environment == env && r[i].remark == remark;
    var k := FindPair(r, env, remark);
    assert k.Some?;
    assert k.value == i;
  }

  /** The rows left after `DELETE … WHERE id = id`. */
  function WithoutId(rows: seq<CredentialRow>, id: int): (r: seq<CredentialRow>)
    ensures forall k :: 0 <= k < |r| ==> r[k].id != id && r[k] in rows
    ensures forall k :: 0 <= k < |rows| && rows[k].id != id ==> rows[k] in r
  {
    FilterSpec(rows, IdIsNot(id));
    Filter(rows, IdIsNot(id))
  }

  /** `WHERE id != id`: the rows a delete by id keeps. */
  function IdIsNot(id: int): CredentialRow -> bool {
    (row: CredentialRow) => row.id != id
  }

  predicate HasId(rows: seq<CredentialRow>, id: int) {
    exists k :: 0 <= k < |rows| && rows[k].id == id
  }

  /** Removing one row by its id removes exactly one row. */
  lemma {:induction false} WithoutIdRemovesOne(rows: seq<CredentialRow>, nextId: nat, id: int)
    requires Keyed(rows, nextId) && HasId(rows, id)
    ensures |WithoutId(rows, id)| == |rows| - 1
  {
    if rows[0].id == id {
      assert forall k :: 0 <= k < |rows| - 1 ==> rows[1..][k].id != id;
      WithoutIdKeepsAll(rows[1..], id);
    } else {
      assert Keyed(rows[1..], nextId);
      var k :| 0 <= k < |rows| && rows[k].id == id;
      assert rows[1..][k - 1].id == id;
      WithoutIdRemovesOne(rows[1..], nextId, id);
    }
  }

  lemma {:induction false} WithoutIdKeepsAll(rows: seq<CredentialRow>, id: int)
    requires forall k :: 0 <= k < |rows| ==> rows[k].id != id
    ensures WithoutId(rows, id) == rows
  {
    if |rows| > 0 {
      WithoutIdKeepsAll(rows[1..], id);
      assert [rows[0]] + rows[1..] == rows;
    }
  }

  /** The row `getDecryptedCredentials` reads: by remark when one is given, else the earliest created. */
  function FindCredential(rows: seq<CredentialRow>, env: Environment, remark: Option<string>): (r: Option<CredentialRow>)
    ensures r.Some? ==> r.value in rows && r.value.environment == env
    ensures Truthy(remark) ==>
              (r.Some? <==> exists k :: 0 <= k < |rows| && rows[k].environment == env && rows[k].remark == remark.value)
    ensures Truthy(remark) && r.Some? ==> r.value.remark == remark.value
    ensures !Truthy(remark) ==> (r.Some? <==> exists k :: 0 <= k < |rows| && rows[k].environment == env)
    ensures !Truthy(remark) && r.Some? ==>
              forall k :: 0 <= k < |rows| && rows[k].environment == env ==> r.value.createdAt <= rows[k].createdAt
  {
    if Truthy(remark) then
      match FindPair(rows, env, remark.value)
      case None => None
      case Some(i) => Some(rows[i])
    else Earliest(rows, env)
  }

  /** `ORDER BY created_at ASC LIMIT 1` over the rows of one environment. */
  function Earliest(rows: seq<CredentialRow>, env: Environment): (r: Option<CredentialRow>)
    ensures r.Some? ==> r.value in rows && r.value.environment == env
    ensures r.Some? <==> exists k :: 0 <= k < |rows| && rows[k].environment == env
    ensures r.Some? ==> forall k :: 0 <= k < |rows| && rows[k].environment == env ==> r.value.createdAt <= rows[k].createdAt
  {
    if |rows| == 0 then None
    else
      var rest := Earliest(rows[1..], env);
      assert forall k :: 1 <= k < |rows| ==> rows[k] == rows[1..][k - 1];
      if rows[0].environment != env then rest
      else if rest.Some? && rest.value.createdAt < rows[0].createdAt then rest
      else Some(rows[0])
  }

  datatype PlainCredentials = PlainCredentials(clientId: string, clientSecret: string)

  /** `getDecryptedCredentials(environment, remark)`. */
  function GetDecrypted(rows: seq<CredentialRow>, env: Environment, remark: Option<string>, keyring: Keyring)
    : (r: Result<PlainCredentials>)
    ensures r == Err(NotFound("PayPal credentials not configured for this environment"))
            <==> FindCredential(rows, env, remark).None?
    ensures FindCredential(rows, env, remark).Some? ==>
              var row := FindCredential(rows, env, remark).value;
              var id, secret := Decrypt(row.clientIdEncrypted, keyring), Decrypt(row.clientSecretEncrypted, keyring);
              && (id.Err? ==> r == Err(id.error))
              && (id.Ok? && secret.Err? ==> r == Err(secret.error))
              && (id.Ok? && secret.Ok? ==> r == Ok(PlainCredentials(id.value, secret.value)))
    ensures r.Ok? <==> && FindCredential(rows, env, remark).Some?
                       && Decrypt(FindCredential(rows, env, remark).value.clientIdEncrypted, keyring).Ok?
                       && Decrypt(FindCredential(rows, env, remark).value.clientSecretEncrypted, keyring).Ok?
  {
    match FindCredential(rows, env, remark)
    case None => Err(NotFound("PayPal credentials not configured for this environment"))
    case Some(row) =>
      match Decrypt(row.clientIdEncrypted, keyring)
      case Err(e) => Err(e)
      case Ok(clientId) =>
        match Decrypt(row.clientSecretEncrypted, keyring)
        case Err(e) => Err(e)
        case Ok(clientSecret) => Ok(PlainCredentials(clientId, clientSecret))
  }

  /** What `getCredentials` lists per row: the decrypted client id but never the secret. */
  datatype CredentialInfo = CredentialInfo(
    id: string, environment: Environment, clientId: string, remark: string,
    hasClientSecret: bool, createdAt: int)

  function CreatedAt(row: CredentialRow): int {
    row.createdAt
  }

  /**
   * The rows `getCredentials` reads: one environment newest first when the filter is exactly
   * "sandbox" or "live"; otherwise `ORDER BY environment, created_at DESC`, that is every
   * live row newest first, then every sandbox row newest first.
   */
  function ListedRows(rows: seq<CredentialRow>, environment: Option<string>): (r: seq<CredentialRow>)
    ensures forall k :: 0 <= k < |r| ==> r[k] in rows
    ensures EnvironmentFilter(environment).Some? ==>
              forall k :: 0 <= k < |r| ==> r[k].environment == EnvironmentFilter(environment).value
    ensures EnvironmentFilter(environment).Some? ==>
              && multiset(r) == multiset(Filter(rows, EnvIs(EnvironmentFilter(environment).value)))
              && forall i, j :: 0 <= i < j < |r| ==> r[i].createdAt >= r[j].createdAt
    ensures EnvironmentFilter(environment).None? ==>
              && multiset(r) == multiset(rows)
              && |r| == |Filter(rows, EnvIs(Live))| + |Filter(rows, EnvIs(Sandbox))|
              && (forall k :: 0 <= k < |Filter(rows, EnvIs(Live))| ==> r[k].environment == Live)
              && (forall k :: |Filter(rows, EnvIs(Live))| <= k < |r| ==> r[k].environment == Sandbox)
              && (forall i, j :: 0 <= i < j < |r| && r[i].environment == r[j].environment ==>
                    r[i].createdAt >= r[j].createdAt)
  {
    match EnvironmentFilter(environment)
    case Some(e) =>
      OfEnvironmentSpec(rows, e);
      OfEnvironment(rows, e)
    case None =>
      PartitionByEnvironment(rows);
      OfEnvironmentSpec(rows, Live);
      OfEnvironmentSpec(rows, Sandbox);
      OfEnvironment(rows, Live) + OfEnvironment(rows, Sandbox)
  }

  /** `WHERE environment = e`. */
  function EnvIs(e: Environment): CredentialRow -> bool {
    (row: CredentialRow) => row.environment == e
  }

  /** `WHERE environment = e ORDER BY created_at DESC`. */
  function OfEnvironment(rows: seq<CredentialRow>, e: Environment): (r: seq<CredentialRow>)
    ensures |r| == |Filter(rows, EnvIs(e))|
  {
    SortDescSpec(Filter(rows, EnvIs(e)), CreatedAt);
    SortDesc(Filter(rows, EnvIs(e)), CreatedAt)
  }

  /** The query yields the environment's rows, exactly those (as a multiset), newest first. */
  lemma OfEnvironmentSpec(rows: seq<CredentialRow>, e: Environment)
    ensures var r := OfEnvironment(rows, e);
            && multiset(r) == multiset(Filter(rows, EnvIs(e)))
            && (forall k :: 0 <= k < |r| ==> r[k] in rows && r[k].environment == e)
            && (forall i, j :: 0 <= i < j < |r| ==> r[i].createdAt >= r[j].createdAt)
  {
    var picked := Filter(rows, EnvIs(e));
    var r := OfEnvironment(rows, e);
    SortDescSpec(picked, CreatedAt);
    assert forall k :: 0 <= k < |r| ==> r[k] in rows && r[k].environment == e by {
      FilterSpec(rows, EnvIs(e));
      assert forall k :: 0 <= k < |r| ==> r[k] in multiset(picked);
    }
    assert forall i, j :: 0 <= i < j < |r| ==> r[i].createdAt >= r[j].createdAt by {
      assert SortedDesc(r, CreatedAt);
    }
  }

  /** Every row is live or sandbox, so the two filters split the table. */
  lemma PartitionByEnvironment(rows: seq<CredentialRow>)
    ensures multiset(Filter(rows, EnvIs(Live)))
          + multiset(Filter(rows, EnvIs(Sandbox))) == multiset(rows)
  {
    assert forall y :: y in rows ==> EnvIs(Live)(y) != EnvIs(Sandbox)(y);
    ComplementaryFiltersPartition(rows, EnvIs(Live), EnvIs(Sandbox));
  }

  function InfoOf(row: CredentialRow, clientId: string): CredentialInfo {
    CredentialInfo(DecimalString(row.id), row.environment, clientId, row.remark, true, row.createdAt)
  }

  /**
   * `getCredentials`: decrypts the client id of every listed row in order; the first
   * decryption that throws fails the whole request.
   */
  method ListCredentials(rows: seq<CredentialRow>, environment: Option<string>, keyring: Keyring)
    returns (r: Result<seq<CredentialInfo>>)
    ensures var listed := ListedRows(rows, environment);
            r.Ok? <==> forall k :: 0 <= k < |listed| ==> Decrypt(listed[k].clientIdEncrypted, keyring).Ok?
    ensures var listed := ListedRows(rows, environment);
            r.Ok? ==> && |r.value| == |listed|
                      && forall k :: 0 <= k < |listed| ==>
                           r.value[k] == InfoOf(listed[k], Decrypt(listed[k].clientIdEncrypted, keyring).value)
    ensures r.Ok? ==> forall k :: 0 <= k < |r.value| ==> r.value[k].hasClientSecret
    ensures var listed := ListedRows(rows, environment);
            r.Err? ==> exists k :: && 0 <= k < |listed|
                                   && Decrypt(listed[k].clientIdEncrypted, keyring).Err?
                                   && (forall j :: 0 <= j < k ==> Decrypt(listed[j].clientIdEncrypted, keyring).Ok?)
                                   && r.error == Decrypt(listed[k].clientIdEncrypted, keyring).error
    ensures r.Err? ==> r.error.Internal?
  {
    r := DescribeAll(ListedRows(rows, environment), text => Decrypt(text, keyring));
  }

  /** The `for await … push` loop of `getCredentials`. */
  method DescribeAll(listed: seq<CredentialRow>, decrypt: string -> Result<string>) returns (r: Result<seq<CredentialInfo>>)
    ensures r.Ok? <==> forall k :: 0 <= k < |listed| ==> decrypt(listed[k].clientIdEncrypted).Ok?
    ensures r.Ok? ==> && |r.value| == |listed|
                      && forall k :: 0 <= k < |listed| ==>
                           r.value[k] == InfoOf(listed[k], decrypt(listed[k].clientIdEncrypted).value)
    ensures r.Ok? ==> forall k :: 0 <= k < |r.value| ==> r.value[k].hasClientSecret
    ensures r.Err? ==> exists k :: && 0 <= k < |listed|
                                  && decrypt(listed[k].clientIdEncrypted).Err?
                                  && (forall j :: 0 <= j < k ==> decrypt(listed[j].clientIdEncrypted).Ok?)
                                  && r.error == decrypt(listed[k].clientIdEncrypted).error
  {
    var list: seq<CredentialInfo> := [];
    var i := 0;
    while i < |listed|
      invariant 0 <= i <= |listed| && |list| == i
      invariant forall k :: 0 <= k < i ==> decrypt(listed[k].clientIdEncrypted).Ok?
      invariant forall k :: 0 <= k < i ==>
                  list[k] == InfoOf(listed[k], decrypt(listed[k].clientIdEncrypted).value)
    {
      var clientId := decrypt(listed[i].clientIdEncrypted);
      if clientId.Err? {
        return Err(clientId.error);
      }
      list := list + [InfoOf(listed[i], clientId.value)];
      i := i + 1;
    }
    r := Ok(list);
  }


  /** The table, updated in place by `saveCredentials` and `deleteCredentials`. */
  class CredentialTable {
    var rows: seq<CredentialRow>
    /** The next value of the id sequence. */
    var nextId: nat

    ghost predicate Valid()
      reads this
    {
      Keyed(rows, nextId)
    }

    constructor ()
      ensures Valid() && rows == [] && nextId == 1
    {
      rows := [];
      nextId := 1;
    }

    /**
     * `saveCredentials`: validates the trimmed copies, then encrypts and stores the inputs as
     * given (untrimmed). The id sequence advances on every insert attempt, conflict or not.
     */
    method Save(userId: int, req: SaveRequest, keyring: Keyring, iv1: seq<Byte>, iv2: seq<Byte>, now: int)
      returns (r: Outcome)
      requires Valid() && |iv1| == IvLength && |iv2| == IvLength
      modifies this
      ensures Valid()
      ensures ValidateSave(req).Fail? ==> r == ValidateSave(req) && rows == old(rows) && nextId == old(nextId)
      ensures ValidateSave(req).Pass? && |CipherKey(EncryptionKey(keyring.configured))| != KeyLength ==>
                r == Fail(Internal("Invalid key length")) && rows == old(rows) && nextId == old(nextId)
      ensures ValidateSave(req).Pass? && |CipherKey(EncryptionKey(keyring.configured))| == KeyLength ==>
                && r == Pass
                && nextId == old(nextId) + 1
                && rows == Upsert(old(rows), old(nextId), userId, req.environment,
                                  Encrypt(req.clientId, keyring, iv1).value,
                                  Encrypt(req.clientSecret, keyring, iv2).value, req.remark, now)
    {
      r := ValidateSave(req);
      if r.Fail? {
        return;
      }
      var idEnc := Encrypt(req.clientId, keyring, iv1);
      var secretEnc := Encrypt(req.clientSecret, keyring, iv2);
      if idEnc.Err? {
        r := Fail(idEnc.error);
        return;
      }
      rows := Upsert(rows, nextId, userId, req.environment, idEnc.value, secretEnc.value, req.remark, now);
      nextId := nextId + 1;
    }

    /** `deleteCredentials`: NotFound unless a row has the parsed id; otherwise that row goes. */
    method Delete(id: string) returns (r: Outcome)
      requires Valid()
      modifies this
      ensures Valid() && nextId == old(nextId)
      ensures var key := ParseInt(id);
              if key.Some? && HasId(old(rows), key.value) then
                r == Pass && rows == WithoutId(old(rows), key.value) && |rows| == |old(rows)| - 1
              else
                r == Fail(NotFound("Credentials not found")) && rows == old(rows)
    {
      var key := ParseInt(id);
      if key.None? || !HasId(rows, key.value) {
        return Fail(NotFound("Credentials not found"));
      }
      WithoutIdRemovesOne(rows, nextId, key.value);
      KeyedAfterDelete(rows, nextId, key.value);
      rows := WithoutId(rows, key.value);
      r := Pass;
    }
  }

  /** Two rows that may share the table: different ids, and not the same environment and remark. */
  predicate Compatible(a: CredentialRow, b: CredentialRow) {
    a.id != b.id && (a.environment != b.environment || a.remark != b.remark)
  }

  lemma KeyedTail(rows: seq<CredentialRow>, nextId: nat)
    requires Keyed(rows, nextId) && |rows| > 0
    ensures Keyed(rows[1..], nextId)
    ensures forall y :: y in rows[1..] ==> Compatible(rows[0], y)
  {
    forall y | y in rows[1..] ensures Compatible(rows[0], y) {
      var j :| 0 <= j < |rows[1..]| && rows[1..][j] == y;
      assert rows[j + 1] == y;
    }
  }

  lemma KeyedCons(x: CredentialRow, rest: seq<CredentialRow>, nextId: nat)
    requires Keyed(rest, nextId) && x.id < nextId
    requires forall y :: y in rest ==> Compatible(x, y)
    ensures Keyed([x] + rest, nextId)
  {
    var r := [x] + rest;
    forall i, j | 0 <= i < j < |r| ensures Compatible(r[i], r[j]) {
      assert r[j] == rest[j - 1];
      if i > 0 { assert r[i] == rest[i - 1]; } else { assert rest[j - 1] in rest; }
    }
  }

  lemma {:induction false} KeyedAfterDelete(rows: seq<CredentialRow>, nextId: nat, id: int)
    requires Keyed(rows, nextId)
    ensures Keyed(WithoutId(rows, id), nextId)
  {
    if |rows| > 0 {
      KeyedTail(rows, nextId);
      KeyedAfterDelete(rows[1..], nextId, id);
      var rest := WithoutId(rows[1..], id);
      if rows[0].id != id {
        assert WithoutId(rows, id) == [rows[0]] + rest;
        assert forall y :: y in rest ==> y in rows[1..];
        KeyedCons(rows[0], rest, nextId);
      } else {
        assert WithoutId(rows, id) == rest;
      }
    }
  }
}
