/**
 Encrypted PEM envelopes of cmd/go-openssl and the change of their secret. The codecs, the key
 derivations and the AEAD are parameters; all that is used of them is that decoding undoes
 encoding and that Open undoes Seal under the same key, nonce and associated data.
 */
module Reencryption {
  import opened Wrappers
  import opened GoStrings
  import opened FileSystem
  import opened AtomicWriter

  const BLOCK_TYPE: Bytes := "GoForge ENCRYPTED PEM"
  const LEGACY_VERSION: nat := 1
  const VERSION: nat := 2
  const ALGORITHM: Bytes := "AES-256-GCM"
  const KDF: Bytes := "ARGON2ID"
  const CERTIFICATE: Bytes := "certificate"
  const PRIVATE_KEY: Bytes := "private-key"
  const PUBLIC_KEY: Bytes := "public-key"
  const MINIMUM_SECRET_BYTES: nat := 32
  const SALT_BYTES: nat := 16
  const NONCE_BYTES: nat := 12
  const KDF_TIME: nat := 3
  const KDF_MEMORY: nat := 64 * 1024
  const KDF_THREADS: nat := 2
  const KDF_KEY_BYTES: nat := 32

  datatype Block = Block(blockType: Bytes, headers: map<Bytes, Bytes>, bytes: Bytes)

  datatype Payload = Payload(
    version: nat,
    algorithm: Bytes,
    kdf: Bytes,
    kdfSalt: Bytes,
    kdfTime: nat,
    kdfMemory: nat,
    kdfThreads: nat,
    kdfKeySize: nat,
    nonce: Bytes,
    ciphertext: Bytes)

  /** What is authenticated beside the plaintext. */
  type AssociatedData = Bytes

  datatype Crypto = Crypto(
    sha256Key: Bytes -> Bytes,
    argon2idKey: (Bytes, Bytes) -> Bytes,
    seal: (Bytes, Bytes, Bytes, AssociatedData) -> Bytes,
    open: (Bytes, Bytes, Bytes, AssociatedData) -> Option<Bytes>,
    encode64: Bytes -> Bytes,
    decode64: Bytes -> Option<Bytes>,
    marshal: Payload -> Bytes,
    unmarshal: Bytes -> Option<Payload>,
    pemEncode: Block -> Bytes,
    pemDecode: Bytes -> Option<Block>)

  /** Decoding undoes encoding; Open undoes Seal. */
  ghost predicate Lawful(c: Crypto) {
    && (forall key, nonce, plain, aad :: c.open(key, nonce, c.seal(key, nonce, plain, aad), aad) == Some(plain))
    && (forall bytes :: c.decode64(c.encode64(bytes)) == Some(bytes))
    && (forall payload :: c.unmarshal(c.marshal(payload)) == Some(payload))
    && (forall kind, bytes | KnownKind(kind) :: c.pemDecode(c.pemEncode(Envelope(kind, bytes))) == Some(Envelope(kind, bytes)))
  }

  predicate KnownKind(kind: Bytes) {
    kind == CERTIFICATE || kind == PRIVATE_KEY || kind == PUBLIC_KEY
  }

  function Envelope(kind: Bytes, bytes: Bytes): Block {
    Block(BLOCK_TYPE, map["Kind" := kind], bytes)
  }

  function Kind(block: Block): Bytes {
    if "Kind" in block.headers then block.headers["Kind"] else ""
  }

  // ---- The envelope -------------------------------------------------------------------------

  /** The fields encryptedPEMAAD writes, in its order. */
  function AadFields(kind: Bytes, p: Payload): seq<Bytes> {
    [BLOCK_TYPE, kind, Decimal(p.version), p.algorithm, p.kdf,
     Decimal(p.kdfTime), Decimal(p.kdfMemory), Decimal(p.kdfThreads), Decimal(p.kdfKeySize)]
  }

  /** encryptedPEMAAD: neither the salt nor the nonce nor the ciphertext is part of it. */
  function Aad(kind: Bytes, p: Payload): AssociatedData {
    Join(AadFields(kind, p), '\0')
  }

  /**
   Equal associated data means equal fields: an envelope of version 2 cannot be opened as one of
   another kind, or with other parameters, than it was sealed with.
   */
  lemma AadBindsItsFields(kind: Bytes, p: Payload, other: Bytes, q: Payload)
    requires '\0' !in kind && '\0' !in p.algorithm && '\0' !in p.kdf
    requires '\0' !in other && '\0' !in q.algorithm && '\0' !in q.kdf
    requires Aad(kind, p) == Aad(other, q)
    ensures kind == other && p.version == q.version && p.algorithm == q.algorithm && p.kdf == q.kdf
    ensures p.kdfTime == q.kdfTime && p.kdfMemory == q.kdfMemory && p.kdfThreads == q.kdfThreads && p.kdfKeySize == q.kdfKeySize
  {
    FieldsArePlain(kind, p);
    FieldsArePlain(other, q);
    var a, b := AadFields(kind, p), AadFields(other, q);
    SplitJoin(a, '\0');
    SplitJoin(b, '\0');
    assert a[1] == b[1] && a[2] == b[2] && a[3] == b[3] && a[4] == b[4];
    assert a[5] == b[5] && a[6] == b[6] && a[7] == b[7] && a[8] == b[8];
    DecimalIsInjective(p.version, q.version);
    DecimalIsInjective(p.kdfTime, q.kdfTime);
    DecimalIsInjective(p.kdfMemory, q.kdfMemory);
    DecimalIsInjective(p.kdfThreads, q.kdfThreads);
    DecimalIsInjective(p.kdfKeySize, q.kdfKeySize);
  }

  lemma FieldsArePlain(kind: Bytes, p: Payload)
    requires '\0' !in kind && '\0' !in p.algorithm && '\0' !in p.kdf
    ensures forall field <- AadFields(kind, p) :: '\0' !in field
  {
    DecimalReads(p.version);
    DecimalReads(p.kdfTime);
    DecimalReads(p.kdfMemory);
    DecimalReads(p.kdfThreads);
    DecimalReads(p.kdfKeySize);
  }

  predicate SupportedKdf(p: Payload) {
    && p.kdf == KDF && p.kdfTime == KDF_TIME && p.kdfMemory == KDF_MEMORY
    && p.kdfThreads == KDF_THREADS && p.kdfKeySize == KDF_KEY_BYTES
  }

  /** encryptPEM; salt and nonce are None when the random source failed. */
  function EncryptPem(c: Crypto, content: Bytes, secret: Bytes, kind: Bytes, salt: Option<Bytes>, nonce: Option<Bytes>)
    : Result<Bytes, ()>
  {
    if |secret| < MINIMUM_SECRET_BYTES || salt.None? || nonce.None? then Err(())
    else
      var key := c.argon2idKey(secret, salt.value);
      var header := Payload(VERSION, ALGORITHM, KDF, c.encode64(salt.value), KDF_TIME, KDF_MEMORY, KDF_THREADS,
                            KDF_KEY_BYTES, c.encode64(nonce.value), "");
      var ciphertext := c.seal(key, nonce.value, content, Aad(kind, header));
      Ok(c.pemEncode(Envelope(kind, c.marshal(header.(ciphertext := c.encode64(ciphertext))))))
  }

  /** The key and the associated data a payload is opened with. */
  function KeyAndAad(c: Crypto, kind: Bytes, p: Payload, secret: Bytes): Result<(Bytes, AssociatedData), ()> {
    if p.version == LEGACY_VERSION then Ok((c.sha256Key(secret), kind))
    else if p.version == VERSION && SupportedKdf(p) then
      match c.decode64(p.kdfSalt)
      case None => Err(())
      case Some(salt) => if |salt| != SALT_BYTES then Err(()) else Ok((c.argon2idKey(secret, salt), Aad(kind, p)))
    else Err(())
  }

  function OpenPayload(c: Crypto, p: Payload, key: Bytes, aad: AssociatedData): Result<Bytes, ()> {
    match (c.decode64(p.nonce), c.decode64(p.ciphertext))
    case (Some(nonce), Some(ciphertext)) =>
      if |nonce| != NONCE_BYTES then Err(())
      else
        (match c.open(key, nonce, ciphertext, aad)
         case None => Err(())
         case Some(plain) => Ok(plain))
    case _ => Err(())
  }

  /** DecryptPEM; content that is no envelope is returned as it is. */
  function DecryptPem(c: Crypto, content: Bytes, secret: Bytes): Result<Bytes, ()> {
    match c.pemDecode(content)
    case None => Ok(content)
    case Some(block) =>
      if block.blockType != BLOCK_TYPE then Ok(content)
      else if |secret| < MINIMUM_SECRET_BYTES then Err(())
      else
        match c.unmarshal(block.bytes)
        case None => Err(())
        case Some(p) =>
          if p.algorithm != ALGORITHM then Err(())
          else
            match KeyAndAad(c, Kind(block), p, secret)
            case Err(_) => Err(())
            case Ok(pair) => OpenPayload(c, p, pair.0, pair.1)
  }

  predicate IsEncryptedPem(c: Crypto, content: Bytes, kind: Bytes) {
    match c.pemDecode(content)
    case None => false
    case Some(block) => block.blockType == BLOCK_TYPE && Kind(block) == kind
  }

  /** The version an envelope declares. */
  function DeclaredVersion(c: Crypto, content: Bytes): Option<nat> {
    match c.pemDecode(content)
    case None => None
    case Some(block) =>
      match c.unmarshal(block.bytes)
      case None => None
      case Some(p) => Some(p.version)
  }

  /** The payload opens with this key and these associated data to the plaintext. */
  predicate OpensWith(c: Crypto, p: Payload, key: Bytes, aad: AssociatedData, plain: Bytes) {
    && c.decode64(p.nonce).Some? && |c.decode64(p.nonce).value| == 12
    && c.decode64(p.ciphertext).Some?
    && c.open(key, c.decode64(p.nonce).value, c.decode64(p.ciphertext).value, aad) == Some(plain)
  }

  /**
   When an envelope is decrypted, and to what: version 1 under the SHA-256 of the secret, bound to
   its kind alone, version 2 under the Argon2id key of its salt with exactly the current
   parameters, bound to all of them; nothing else is opened.
   */
  lemma OpensExactly(c: Crypto, content: Bytes, block: Block, p: Payload, secret: Bytes, plain: Bytes)
    requires c.pemDecode(content) == Some(block) && block.blockType == "GoForge ENCRYPTED PEM"
    requires c.unmarshal(block.bytes) == Some(p)
    ensures DecryptPem(c, content, secret) == Ok(plain) <==>
            && |secret| >= 32 && p.algorithm == "AES-256-GCM"
            && (|| (p.version == 1 && OpensWith(c, p, c.sha256Key(secret), Kind(block), plain))
                || (&& p.version == 2 && p.kdf == "ARGON2ID" && p.kdfTime == 3 && p.kdfMemory == 65536
                    && p.kdfThreads == 2 && p.kdfKeySize == 32
                    && c.decode64(p.kdfSalt).Some? && |c.decode64(p.kdfSalt).value| == 16
                    && OpensWith(c, p, c.argon2idKey(secret, c.decode64(p.kdfSalt).value), Aad(Kind(block), p), plain)))
  {
  }

  /** Content without an envelope is returned as it is; an envelope that is no payload is refused. */
  lemma OtherContent(c: Crypto, content: Bytes, secret: Bytes)
    ensures c.pemDecode(content).None? ==> DecryptPem(c, content, secret) == Ok(content)
    ensures c.pemDecode(content).Some? ==>
              var block := c.pemDecode(content).value;
              && (block.blockType != "GoForge ENCRYPTED PEM" ==> DecryptPem(c, content, secret) == Ok(content))
              && (block.blockType == "GoForge ENCRYPTED PEM" && c.unmarshal(block.bytes).None? ==> DecryptPem(c, content, secret).Err?)
  {
  }

  /** A version-1 envelope as the earlier release wrote it. */
  function LegacyPem(c: Crypto, plain: Bytes, secret: Bytes, kind: Bytes, nonce: Bytes, rest: Payload): Bytes {
    var ciphertext := c.seal(c.sha256Key(secret), nonce, plain, kind);
    c.pemEncode(Envelope(kind, c.marshal(rest.(version := 1, algorithm := "AES-256-GCM", nonce := c.encode64(nonce),
                                               ciphertext := c.encode64(ciphertext)))))
  }

  /** It opens under its secret, whatever its other fields are. */
  lemma LegacyOpens(c: Crypto, plain: Bytes, secret: Bytes, kind: Bytes, nonce: Bytes, rest: Payload)
    requires Lawful(c) && KnownKind(kind) && |nonce| == 12 && |secret| >= 32
    ensures var content := LegacyPem(c, plain, secret, kind, nonce, rest);
            && DecryptPem(c, content, secret) == Ok(plain)
            && IsEncryptedPem(c, content, kind) && DeclaredVersion(c, content) == Some(1)
  {
    var ciphertext := c.seal(c.sha256Key(secret), nonce, plain, kind);
    var p := rest.(version := 1, algorithm := "AES-256-GCM", nonce := c.encode64(nonce), ciphertext := c.encode64(ciphertext));
    var content := LegacyPem(c, plain, secret, kind, nonce, rest);
    assert c.pemDecode(content) == Some(Envelope(kind, c.marshal(p)));
    assert c.unmarshal(c.marshal(p)) == Some(p);
    assert OpensWith(c, p, c.sha256Key(secret), kind, plain);
    OpensExactly(c, content, Envelope(kind, c.marshal(p)), p, secret, plain);
  }

  /** What encryptPEM writes, DecryptPEM reads back under the same secret, as the current version. */
  lemma EncryptThenDecrypt(c: Crypto, content: Bytes, secret: Bytes, kind: Bytes, salt: Bytes, nonce: Bytes)
    requires Lawful(c) && KnownKind(kind) && |salt| == SALT_BYTES && |nonce| == NONCE_BYTES
    ensures var sealed := EncryptPem(c, content, secret, kind, Some(salt), Some(nonce));
            && (sealed.Ok? <==> |secret| >= MINIMUM_SECRET_BYTES)
            && (sealed.Ok? ==>
                  && DecryptPem(c, sealed.value, secret) == Ok(content)
                  && IsEncryptedPem(c, sealed.value, kind)
                  && DeclaredVersion(c, sealed.value) == Some(VERSION))
  {
    if |secret| >= MINIMUM_SECRET_BYTES {
      var key := c.argon2idKey(secret, salt);
      var header := Payload(VERSION, ALGORITHM, KDF, c.encode64(salt), KDF_TIME, KDF_MEMORY, KDF_THREADS,
                            KDF_KEY_BYTES, c.encode64(nonce), "");
      var payload := header.(ciphertext := c.encode64(c.seal(key, nonce, content, Aad(kind, header))));
      assert c.pemDecode(c.pemEncode(Envelope(kind, c.marshal(payload)))) == Some(Envelope(kind, c.marshal(payload)));
      assert Aad(kind, payload) == Aad(kind, header);
      assert KeyAndAad(c, kind, payload, secret) == Ok((key, Aad(kind, header)));
      assert OpenPayload(c, payload, key, Aad(kind, header)) == Ok(content);
    }
  }

  // ---- The change of secret -----------------------------------------------------------------

  /** prepareReencryptedPEMFile, once the file has been read. */
  function Reencrypt(c: Crypto, content: Bytes, kind: Bytes, oldSecret: Bytes, newSecret: Bytes,
                     salt: Option<Bytes>, nonce: Option<Bytes>): Result<Bytes, ()>
  {
    if !IsEncryptedPem(c, content, kind) then Err(())
    else
      match DecryptPem(c, content, oldSecret)
      case Err(_) => Err(())
      case Ok(plain) => EncryptPem(c, plain, newSecret, kind, salt, nonce)
  }

  /** The new file holds, under the new secret, what the old one held under the old secret. */
  ghost predicate Carries(c: Crypto, before: Bytes, oldSecret: Bytes, after: Bytes, newSecret: Bytes, kind: Bytes) {
    && DecryptPem(c, before, oldSecret).Ok?
    && DecryptPem(c, after, newSecret) == DecryptPem(c, before, oldSecret)
    && IsEncryptedPem(c, before, kind) && IsEncryptedPem(c, after, kind)
    && DeclaredVersion(c, after) == Some(VERSION)
  }

  ghost predicate RightSize(bytes: Option<Bytes>, size: nat) {
    bytes.Some? ==> |bytes.value| == size
  }

  lemma ReencryptCarries(c: Crypto, content: Bytes, kind: Bytes, oldSecret: Bytes, newSecret: Bytes,
                         salt: Option<Bytes>, nonce: Option<Bytes>)
    requires Lawful(c) && KnownKind(kind) && RightSize(salt, SALT_BYTES) && RightSize(nonce, NONCE_BYTES)
    requires Reencrypt(c, content, kind, oldSecret, newSecret, salt, nonce).Ok?
    ensures Carries(c, content, oldSecret, Reencrypt(c, content, kind, oldSecret, newSecret, salt, nonce).value, newSecret, kind)
  {
    EncryptThenDecrypt(c, DecryptPem(c, content, oldSecret).value, newSecret, kind, salt.value, nonce.value);
  }

  /** A version-1 envelope is upgraded: the same plaintext in version 2, under the new secret. */
  lemma LegacyIsUpgraded(c: Crypto, plain: Bytes, kind: Bytes, oldSecret: Bytes, newSecret: Bytes, legacyNonce: Bytes,
                         rest: Payload, salt: Bytes, nonce: Bytes)
    requires Lawful(c) && KnownKind(kind) && |oldSecret| >= 32 && |newSecret| >= 32
    requires |legacyNonce| == 12 && |salt| == 16 && |nonce| == 12
    ensures var content := LegacyPem(c, plain, oldSecret, kind, legacyNonce, rest);
            var r := Reencrypt(c, content, kind, oldSecret, newSecret, Some(salt), Some(nonce));
            && r.Ok? && DecryptPem(c, r.value, newSecret) == Ok(plain)
            && DeclaredVersion(c, content) == Some(1) && DeclaredVersion(c, r.value) == Some(2)
  {
    LegacyOpens(c, plain, oldSecret, kind, legacyNonce, rest);
    EncryptThenDecrypt(c, plain, newSecret, kind, salt, nonce);
  }

  datatype Options = Options(certificate: string, privateKey: string, publicKey: string, oldSecret: Bytes, newSecret: Bytes)

  /** The three files of a call: certificate, private key and public key. */
  function PathOf(o: Options, k: nat): string {
    if k == 0 then o.certificate else if k == 1 then o.privateKey else o.publicKey
  }

  function KindOf(k: nat): Bytes {
    if k == 0 then CERTIFICATE else if k == 1 then PRIVATE_KEY else PUBLIC_KEY
  }

  /** 0o600 for the private key, 0o644 for the others. */
  function ModeOf(k: nat): nat {
    if k == 1 then 0x180 else 0x1A4
  }

  lemma ModesArePermissions(k: nat)
    ensures Perm(ModeOf(k)) == ModeOf(k)
  {
  }

  /** strings.TrimSpace on paths, and the test that a secret is blank. */
  datatype Text = Text(trim: string -> string, blank: Bytes -> bool)

  function Normalize(text: Text, o: Options): Result<Options, ()> {
    var n := o.(certificate := text.trim(o.certificate), privateKey := text.trim(o.privateKey), publicKey := text.trim(o.publicKey));
    if n.certificate == "" || n.privateKey == "" || n.publicKey == "" then Err(())
    else if text.blank(o.oldSecret) || text.blank(o.newSecret) || o.oldSecret == o.newSecret then Err(())
    else if |o.oldSecret| < MINIMUM_SECRET_BYTES || |o.newSecret| < MINIMUM_SECRET_BYTES then Err(())
    else Ok(n)
  }

  /** Exactly three non-empty paths and two different secrets, each no blank and of at least 256 bits, are accepted. */
  lemma AcceptsOptions(text: Text, o: Options)
    ensures Normalize(text, o).Ok? <==>
            && (forall path <- [o.certificate, o.privateKey, o.publicKey] :: text.trim(path) != "")
            && (forall secret <- [o.oldSecret, o.newSecret] :: !text.blank(secret) && |secret| >= 32)
            && o.oldSecret != o.newSecret
    ensures Normalize(text, o).Ok? ==>
              var n := Normalize(text, o).value;
              && [n.certificate, n.privateKey, n.publicKey] == [text.trim(o.certificate), text.trim(o.privateKey), text.trim(o.publicKey)]
              && [n.oldSecret, n.newSecret] == [o.oldSecret, o.newSecret]
  {
    var paths, secrets := [o.certificate, o.privateKey, o.publicKey], [o.oldSecret, o.newSecret];
    assert paths[0] in paths && paths[1] in paths && paths[2] in paths;
    assert secrets[0] in secrets && secrets[1] in secrets;
  }

  /** io.ReadFull of n bytes from the random source, which a steady source always delivers. */
  method RandomBytes(n: nat, steady: bool) returns (bytes: Option<Bytes>)
    ensures RightSize(bytes, n) && (steady ==> bytes.Some?)
  {
    var fails: bool := *;
    if fails && !steady {
      return None;
    }
    var filled: Bytes := *;
    if |filled| != n {
      filled := seq(n, i => '\0');
    }
    bytes := Some(filled);
  }

  class Generator {
    const writer: Writer
    const crypto: Crypto
    const text: Text
    const steady: bool

    constructor (writer: Writer, crypto: Crypto, text: Text, steady: bool)
      ensures this.writer == writer && this.crypto == crypto && this.text == text && this.steady == steady
    {
      this.writer, this.crypto, this.text, this.steady := writer, crypto, text, steady;
    }

    /** Nothing fails by itself, and others act only where they are asked to. */
    ghost predicate Calm() {
      writer.fs.calm && steady
    }

    /** The path names an envelope of the kind that opens under the secret. */
    ghost predicate Reencryptable(files: Files, path: string, kind: Bytes, secret: Bytes) {
      && writer.resolve(path).Some?
      && var p := Named(writer.resolve(path).value);
      && p in files && files[p].File?
      && IsEncryptedPem(crypto, files[p].content, kind) && DecryptPem(crypto, files[p].content, secret).Ok?
    }

    /** A path names the file its resolution names. */
    ghost predicate Holds(files: Files, path: string, content: Bytes) {
      && writer.resolve(path).Some?
      && var p := Named(writer.resolve(path).value);
      p in files && files[p].File? && files[p].content == content
    }

    method Prepare(path: string, kind: Bytes, oldSecret: Bytes, newSecret: Bytes, mode: nat)
      returns (r: Result<Update, ()>, ghost before: Bytes)
      requires Lawful(crypto) && KnownKind(kind)
      ensures r.Ok? ==> r.value.path == path && r.value.mode == mode && Holds(writer.fs.files, path, before)
      ensures r.Ok? ==> Carries(crypto, before, oldSecret, r.value.content, newSecret, kind)
      ensures Calm() && |newSecret| >= MINIMUM_SECRET_BYTES ==>
                (r.Ok? <==> Reencryptable(writer.fs.files, path, kind, oldSecret))
    {
      before := [];
      var clean := writer.resolve(path);
      if clean.None? {
        return Err(()), before;
      }
      var content := writer.fs.ReadFile(Named(clean.value));
      if content.Err? {
        return Err(()), before;
      }
      before := content.value;
      var salt := RandomBytes(SALT_BYTES, steady);
      var nonce := RandomBytes(NONCE_BYTES, steady);
      var sealed := Reencrypt(crypto, content.value, kind, oldSecret, newSecret, salt, nonce);
      if sealed.Err? {
        return Err(()), before;
      }
      ReencryptCarries(crypto, content.value, kind, oldSecret, newSecret, salt, nonce);
      r := Ok(Update(path, sealed.value, mode));
    }

    /** `update` replaces file k, which held `was`, by one that carries over its content. */
    ghost predicate Prepared(files: Files, update: Update, k: nat, o: Options, was: Bytes) {
      && update.path == PathOf(o, k) && update.mode == ModeOf(k) && Holds(files, PathOf(o, k), was)
      && Carries(crypto, was, o.oldSecret, update.content, o.newSecret, KindOf(k))
    }

    ghost predicate ReencryptableAt(files: Files, o: Options, k: nat) {
      Reencryptable(files, PathOf(o, k), KindOf(k), o.oldSecret)
    }

    method PrepareFile(o: Options, k: nat) returns (r: Result<Update, ()>, ghost was: Bytes)
      requires Lawful(crypto)
      ensures r.Ok? ==> Prepared(writer.fs.files, r.value, k, o, was)
      ensures Calm() && |o.newSecret| >= MINIMUM_SECRET_BYTES ==> (r.Ok? <==> ReencryptableAt(writer.fs.files, o, k))
    {
      r, was := Prepare(PathOf(o, k), KindOf(k), o.oldSecret, o.newSecret, ModeOf(k));
    }

    /** Certificate, private key and public key, until one of them cannot be re-encrypted. */
    method PrepareAll(o: Options) returns (r: Result<seq<Update>, ()>, ghost was: seq<Bytes>)
      requires Lawful(crypto)
      ensures r.Ok? ==> |r.value| == 3 && |was| == 3
      ensures r.Ok? ==> forall k | 0 <= k < 3 :: Prepared(writer.fs.files, r.value[k], k, o, was[k])
      ensures Calm() && |o.newSecret| >= MINIMUM_SECRET_BYTES ==>
                (r.Ok? <==> forall k | 0 <= k < 3 :: ReencryptableAt(writer.fs.files, o, k))
    {
      var updates: seq<Update> := [];
      was := [];
      for k := 0 to 3
        invariant |updates| == |was| == k
        invariant forall j | 0 <= j < k :: Prepared(writer.fs.files, updates[j], j, o, was[j])
        invariant Calm() && |o.newSecret| >= MINIMUM_SECRET_BYTES ==>
                    forall j | 0 <= j < k :: ReencryptableAt(writer.fs.files, o, j)
      {
        var update, content := PrepareFile(o, k);
        if update.Err? {
          return Err(()), was;
        }
        updates := updates + [update.value];
        was := was + [content];
      }
      r := Ok(updates);
    }

    /** The path of file k. */
    ghost function PathNamed(o: Options, k: nat): Path
      requires writer.resolve(PathOf(o, k)).Some?
    {
      Named(writer.resolve(PathOf(o, k)).value)
    }

    /** File k held `was` in `before`, and `now` carries it over. */
    ghost predicate Carried(before: Files, k: nat, o: Options, was: Bytes, now: Bytes) {
      Holds(before, PathOf(o, k), was) && Carries(crypto, was, o.oldSecret, now, o.newSecret, KindOf(k))
    }

    /** In `files` it is in place. */
    ghost predicate CarriedOver(before: Files, files: Files, k: nat, o: Options, was: Bytes, now: Bytes) {
      Carried(before, k, o, was, now) && HasBytes(files, PathNamed(o, k), now, ModeOf(k))
    }

    /** File k is as others left it, has the bytes they left, or carries over what it held before. */
    ghost predicate NeverMixed(before: Files, files: Files, outside: Files, k: nat, o: Options, was: Bytes, now: Bytes) {
      Carried(before, k, o, was, now) && Whole(files, outside, PathNamed(o, k), now, ModeOf(k))
    }

    /** What a caller can check before the call: three envelopes at different, replaceable places. */
    ghost predicate Ready(files: Files, o: Options) {
      && (forall k | 0 <= k < 3 :: ReencryptableAt(files, o, k))
      && writer.Good(files, Places(o))
    }

    /** The paths of the three files. */
    ghost function Places(o: Options): seq<Update> {
      seq(3, k requires 0 <= k < 3 => Update(PathOf(o, k), [], 0))
    }

    /** Whether a batch is good depends on its paths alone. */
    lemma GoodPlaces(files: Files, updates: seq<Update>, o: Options)
      requires |updates| == 3 && forall k | 0 <= k < 3 :: updates[k].path == PathOf(o, k)
      ensures writer.Good(files, updates) <==> writer.Good(files, Places(o))
    {
      var places := Places(o);
      assert forall k | 0 <= k < 3 :: places[k].path == updates[k].path;
      assert forall k | 0 <= k < 3 :: writer.GoodTarget(files, updates[k]) <==> writer.GoodTarget(files, places[k]);
    }

    /** The file at the path has that kind and mode, is of the current version, and carries over what it held. */
    ghost predicate InPlace(before: Files, files: Files, path: string, kind: Bytes, mode: nat, o: Options) {
      && writer.resolve(path).Some?
      && var p := Named(writer.resolve(path).value);
      && p in before && before[p].File? && p in files && files[p].File? && files[p].mode == mode
      && IsEncryptedPem(crypto, files[p].content, kind) && DeclaredVersion(crypto, files[p].content) == Some(2)
      && DecryptPem(crypto, before[p].content, o.oldSecret).Ok?
      && DecryptPem(crypto, files[p].content, o.newSecret) == DecryptPem(crypto, before[p].content, o.oldSecret)
    }

    lemma FileInPlace(before: Files, files: Files, k: nat, o: Options, was: Bytes, now: Bytes)
      requires CarriedOver(before, files, k, o, was, now)
      ensures InPlace(before, files, PathOf(o, k), KindOf(k), ModeOf(k), o)
    {
    }

    /** The three files by name: only its owner may read the private key. */
    ghost predicate AllInPlace(before: Files, files: Files, o: Options) {
      && InPlace(before, files, o.certificate, CERTIFICATE, 0x1A4, o)
      && InPlace(before, files, o.privateKey, PRIVATE_KEY, 0x180, o)
      && InPlace(before, files, o.publicKey, PUBLIC_KEY, 0x1A4, o)
    }

    lemma FilesInPlace(before: Files, files: Files, o: Options, was: seq<Bytes>, now: seq<Bytes>)
      requires |was| == |now| == 3 && forall k | 0 <= k < 3 :: CarriedOver(before, files, k, o, was[k], now[k])
      ensures AllInPlace(before, files, o)
    {
      FileInPlace(before, files, 0, o, was[0], now[0]);
      FileInPlace(before, files, 1, o, was[1], now[1]);
      FileInPlace(before, files, 2, o, was[2], now[2]);
    }

    lemma Written(before: Files, files: Files, outside: Files, update: Update, k: nat, o: Options, was: Bytes)
      requires Prepared(before, update, k, o, was) && writer.resolve(update.path).Some?
      ensures HasBytes(files, writer.TargetOf(update), update.content, Perm(update.mode)) ==>
                CarriedOver(before, files, k, o, was, update.content)
      ensures Whole(files, outside, writer.TargetOf(update), update.content, Perm(update.mode)) ==>
                NeverMixed(before, files, outside, k, o, was, update.content)
    {
      ModesArePermissions(k);
    }

    /** The new contents of the updates, in buffers of their own. */
    method Buffers(updates: seq<Update>) returns (buffers: seq<Buffer>)
      ensures Updates(buffers) == updates
      ensures forall b <- buffers :: fresh(b.content)
    {
      buffers := [];
      for k := 0 to |updates|
        invariant |buffers| == k && forall b <- buffers :: fresh(b.content)
        invariant forall j | 0 <= j < k :: Update(buffers[j].path, buffers[j].content[..], buffers[j].mode) == updates[j]
      {
        var u := updates[k];
        var content := new Byte[|u.content|](i requires 0 <= i < |u.content| => u.content[i]);
        assert content[..] == u.content;
        buffers := buffers + [Buffer(u.path, content, u.mode)];
      }
    }

    /**
     UpdateEncryptionSecret: on success each file decrypts under the new secret to what it
     decrypted to under the old one when the call began; a failure with a clean rollback
     leaves every file as it was, and after any failure no file is a mixture.
     */
    method UpdateEncryptionSecret(options: Options)
      returns (outcome: Outcome, ghost was: seq<Bytes>, ghost now: seq<Bytes>, ghost replaced: nat)
      requires Lawful(crypto)
      requires writer.fs.Valid() && writer.fs.Untouched({}) && writer.fs.temps == {} && !writer.fs.removalFailed
      modifies writer.fs
      ensures outcome.Success? ==> Normalize(text, options).Ok? && |was| == |now| == 3
      ensures outcome.Success? ==> forall k | 0 <= k < 3 ::
                  CarriedOver(old(writer.fs.files), writer.fs.files, k, Normalize(text, options).value, was[k], now[k])
      ensures Calm() ==> writer.fs.outside == old(writer.fs.outside)
      ensures Calm() ==> outcome == if Normalize(text, options).Ok? && Ready(old(writer.fs.outside), Normalize(text, options).value)
                                    then Success else Failed(true)
      ensures Calm() && outcome.Success? ==> forall k | 0 <= k < 3 ::
                  CarriedOver(writer.fs.outside, writer.fs.files, k, Normalize(text, options).value, was[k], now[k])
      ensures outcome.Success? ==> AllInPlace(old(writer.fs.files), writer.fs.files, Normalize(text, options).value)
      ensures outcome == Failed(true) ==>
                forall p: Path :: p !in writer.fs.temps ==> HoldsOriginal(writer.fs.files, writer.fs.outside, p)
      ensures outcome == Failed(false) ==> Normalize(text, options).Ok? && |was| == |now| == 3
      ensures outcome == Failed(false) ==> forall k | 0 <= k < 3 ::
                  NeverMixed(old(writer.fs.files), writer.fs.files, writer.fs.outside, k, Normalize(text, options).value, was[k], now[k])
      ensures replaced == 0 ==> writer.fs.Untouched({})
      ensures !writer.fs.removalFailed ==> writer.fs.temps == {}
    {
      was, now, replaced := [], [], 0;
      assert writer.fs.files == writer.fs.outside;
      var normalized := Normalize(text, options);
      if normalized.Err? {
        return Failed(true), was, now, replaced;
      }
      var o := normalized.value;
      var updates;
      updates, was := PrepareAll(o);
      if updates.Err? {
        return Failed(true), was, now, replaced;
      }
      ghost var batch;
      ghost var before := writer.fs.files;
      var buffers := Buffers(updates.value);
      GoodPlaces(writer.fs.outside, updates.value, o);
      var synced := writer.fs.Sync();
      outcome, batch, replaced := writer.WriteAndWipe(buffers, synced);
      now := seq(3, k requires 0 <= k < 3 => updates.value[k].content);
      forall k | 0 <= k < 3
        ensures outcome.Success? ==> CarriedOver(before, writer.fs.files, k, o, was[k], now[k])
        ensures NeverMixed(before, writer.fs.files, writer.fs.outside, k, o, was[k], now[k])
      {
        assert updates.value[k] in updates.value;
        Written(before, writer.fs.files, writer.fs.outside, updates.value[k], k, o, was[k]);
      }
      if outcome.Success? {
        FilesInPlace(before, writer.fs.files, o, was, now);
      }
    }
  }

  /** A calm disk with one file in a directory, and a writer that takes paths as they are. */
  method OneFile(directory: string, name: string, content: Bytes) returns (writer: Writer)
    requires name != directory
    ensures fresh(writer.fs) && writer.fs.calm && writer.fs.Valid() && writer.fs.Untouched({})
    ensures writer.fs.temps == {} && !writer.fs.removalFailed && writer.fs.files == writer.fs.outside
    ensures writer.fs.outside == map[Named(name) := File(content, 0x1A4, 0), Named(directory) := Special(true)]
    ensures writer.resolve(name) == Some(name) && writer.parent(name) == directory
  {
    var files := map[Named(name) := File(content, 0x1A4, 0), Named(directory) := Special(true)];
    var fs := new FileSystem(files, 0, true);
    writer := new Writer(fs, path => Some(path), path => directory);
  }

  /** On that disk the file is prepared for its new secret. */
  method PrepareOne(c: Crypto, writer: Writer, one: Bytes, oldSecret: Bytes, newSecret: Bytes, name: string)
    returns (update: Update)
    requires Lawful(c) && |newSecret| >= MINIMUM_SECRET_BYTES && writer.fs.calm && writer.resolve(name) == Some(name)
    requires Named(name) in writer.fs.files && writer.fs.files[Named(name)] == File(one, 0x1A4, 0)
    requires IsEncryptedPem(c, one, CERTIFICATE) && DecryptPem(c, one, oldSecret).Ok?
    ensures update.path == name && DecryptPem(c, update.content, newSecret) == DecryptPem(c, one, oldSecret)
  {
    var generator := new Generator(writer, c, Text(path => path, secret => false), true);
    assert generator.Reencryptable(writer.fs.files, name, CERTIFICATE, oldSecret);
    var r, before := generator.Prepare(name, CERTIFICATE, oldSecret, newSecret, 0x1A4);
    assert before == one;
    update := r.value;
  }

  /**
   A change between reading and replacing is lost without a trace: a certificate is read for
   re-encryption, someone else writes another one in its place, and the batch writer succeeds. What
   others left last is the second envelope, and the file decrypts to the content of the first.
   */
  method ChangeIsOverwritten(c: Crypto, one: Bytes, two: Bytes, oldSecret: Bytes, newSecret: Bytes, directory: string, name: string)
    returns (fs: FileSystem, outcome: Outcome)
    requires Lawful(c) && |newSecret| >= MINIMUM_SECRET_BYTES
    requires IsEncryptedPem(c, one, CERTIFICATE) && DecryptPem(c, one, oldSecret).Ok?
    requires |two| <= MAXIMUM_ORIGINAL_BYTES && name != "" && name != directory
    ensures outcome == Success
    ensures var p := Named(name);
            && p in fs.outside && fs.outside[p].File? && fs.outside[p].content == two
            && p in fs.files && fs.files[p].File?
            && DecryptPem(c, fs.files[p].content, newSecret) == DecryptPem(c, one, oldSecret)
  {
    var writer := OneFile(directory, name, one);
    fs := writer.fs;
    var update := PrepareOne(c, writer, one, oldSecret, newSecret, name);
    fs.OthersWrite(name, File(two, 0x1A4, 1));
    assert writer.Good(fs.outside, [update]);
    ghost var batch, replaced;
    outcome, batch, replaced := writer.WriteFiles([update], true);
    assert update in [update];
  }
}
