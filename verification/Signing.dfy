/** Signing a manifest document in place, and verifying its signature block. */
module Signing {
  import opened Wrappers
  import opened Canonical
  import opened CanonicalWriters

  const SIGNATURE := "signature"
  const ALGORITHM := "ed25519"

  // Foreign code: key derivation, the id of a public key, signing and checking. A key or a
  // signature that does not decode is not valid, and checks nothing.
  datatype Crypto = Crypto(
    publicKey: string -> string,
    keyId: string -> string,
    sign: (string, string) -> string,
    validKey: string -> bool,
    validSignature: string -> bool,
    check: (string, string, string) -> bool)

  // What was signed verifies.
  ghost predicate Correct(c: Crypto) {
    && (forall secret :: c.validKey(c.publicKey(secret)))
    && (forall secret, bytes :: c.validSignature(c.sign(secret, bytes)))
    && (forall secret, bytes :: c.check(c.publicKey(secret), bytes, c.sign(secret, bytes)))
  }

  datatype SignError =
    | NotAnObject
    | NotCanonical
    | BlockNotAnObject
    | MissingField(name: string)
    | UnknownAlgorithm
    | BadPublicKey
    | KeyIdMismatch
    | BadSignature
    | Forged

  datatype Signer = Signer(keyId: string, publicKey: string)

  // The document without its signature block.
  function Unsigned(v: Json): Json
    requires v.Obj?
  {
    Obj(v.members - {SIGNATURE})
  }

  ghost function SignableBytes(v: Json): Result<string, SignError> {
    if !v.Obj? then Err(NotAnObject)
    else if !Writable(Unsigned(v)) then Err(NotCanonical)
    else Ok(Bytes(Unsigned(v)))
  }

  function Block(c: Crypto, secret: string, bytes: string): Json {
    Obj(map[
          "alg" := Str(ALGORITHM),
          "keyId" := Str(c.keyId(c.publicKey(secret))),
          "publicKey" := Str(c.publicKey(secret)),
          "sig" := Str(c.sign(secret, bytes))])
  }

  function WithBlock(v: Json, block: Json): Json
    requires v.Obj?
  {
    Obj(v.members[SIGNATURE := block])
  }

  ghost function Signed(c: Crypto, v: Json, secret: string): Result<Json, SignError> {
    var bytes :- SignableBytes(v);
    Ok(WithBlock(v, Block(c, secret, bytes)))
  }

  function Field(block: Json, name: string): Result<string, SignError>
    requires block.Obj?
  {
    if name in block.members && block.members[name].Str? then Ok(block.members[name].text) else Err(MissingField(name))
  }

  // A block's signer and signature, when it is well formed.
  function ReadBlock(c: Crypto, block: Json): Result<(Signer, string), SignError> {
    if !block.Obj? then Err(BlockNotAnObject)
    else
      var alg :- Field(block, "alg");
      if alg != ALGORITHM then Err(UnknownAlgorithm)
      else
        var keyId :- Field(block, "keyId");
        var publicKey :- Field(block, "publicKey");
        var sig :- Field(block, "sig");
        if !c.validKey(publicKey) then Err(BadPublicKey)
        else if c.keyId(publicKey) != keyId then Err(KeyIdMismatch)
        else if !c.validSignature(sig) then Err(BadSignature)
        else Ok((Signer(keyId, publicKey), sig))
  }

  // None without a signature; an error for every signature that does not hold.
  ghost function Verified(c: Crypto, v: Json): Result<Option<Signer>, SignError> {
    if !v.Obj? then Err(NotAnObject)
    else if SIGNATURE !in v.members then Ok(None)
    else
      var (signer, sig) :- ReadBlock(c, v.members[SIGNATURE]);
      var bytes :- SignableBytes(v);
      if c.check(signer.publicKey, bytes, sig) then Ok(Some(signer)) else Err(Forged)
  }

  // ----- what signing promises -----

  // The signed bytes are equal exactly for documents that agree on everything but the signature.
  lemma SignableExactly(a: Json, b: Json)
    requires SignableBytes(a).Ok? && SignableBytes(b).Ok?
    ensures SignableBytes(a) == SignableBytes(b) <==> Unsigned(a) == Unsigned(b)
  {
    BytesInjective(Unsigned(a), Unsigned(b));
  }

  // Inserting or replacing a block changes nothing that is signed.
  lemma BlockNotCovered(v: Json, block: Json)
    requires v.Obj?
    ensures Unsigned(WithBlock(v, block)) == Unsigned(v)
    ensures SignableBytes(WithBlock(v, block)) == SignableBytes(v)
  {
    assert v.members[SIGNATURE := block] - {SIGNATURE} == v.members - {SIGNATURE};
  }

  // Signing again replaces the block and nothing else.
  lemma ResigningReplaces(c: Crypto, v: Json, first: string, second: string)
    requires Signed(c, v, first).Ok?
    ensures Signed(c, Signed(c, v, first).value, second) == Signed(c, v, second)
    ensures SignableBytes(Signed(c, v, first).value) == SignableBytes(v)
  {
    var bytes := SignableBytes(v).value;
    BlockNotCovered(v, Block(c, first, bytes));
    assert v.members[SIGNATURE := Block(c, first, bytes)][SIGNATURE := Block(c, second, bytes)]
        == v.members[SIGNATURE := Block(c, second, bytes)];
  }

  // What was signed verifies, as the key that signed it.
  lemma SignedVerifies(c: Crypto, v: Json, secret: string)
    requires Correct(c) && Signed(c, v, secret).Ok?
    ensures Verified(c, Signed(c, v, secret).value) ==
      Ok(Some(Signer(c.keyId(c.publicKey(secret)), c.publicKey(secret))))
  {
    var bytes := SignableBytes(v).value;
    BlockNotCovered(v, Block(c, secret, bytes));
    BlockReads(c, secret, bytes);
  }

  lemma BlockReads(c: Crypto, secret: string, bytes: string)
    requires Correct(c)
    ensures ReadBlock(c, Block(c, secret, bytes)) ==
      Ok((Signer(c.keyId(c.publicKey(secret)), c.publicKey(secret)), c.sign(secret, bytes)))
  {
  }

  // A text member of a signature block.
  predicate Says(block: Json, name: string, text: string) {
    block.Obj? && name in block.members && block.members[name] == Str(text)
  }

  predicate Lacks(block: Json, name: string) {
    block.Obj? && (name !in block.members || !block.members[name].Str?)
  }

  // A block by the algorithm known, of a valid key that has the id it names.
  predicate NamesSigner(c: Crypto, block: Json, s: Signer) {
    && Says(block, "alg", "ed25519") && Says(block, "keyId", s.keyId) && Says(block, "publicKey", s.publicKey)
    && c.validKey(s.publicKey) && s.keyId == c.keyId(s.publicKey)
  }

  // Its signature is valid and checks for the canonical bytes of everything else in the document.
  ghost predicate Certifies(c: Crypto, v: Json, s: Signer, sig: string) {
    && v.Obj? && SIGNATURE in v.members && Says(v.members[SIGNATURE], "sig", sig) && c.validSignature(sig)
    && Writable(Obj(v.members - {SIGNATURE}))
    && c.check(s.publicKey, Bytes(Obj(v.members - {SIGNATURE})), sig)
  }

  // A document verifies as a signer exactly when its block names the signer, with the id of its
  // own key, and certifies the document; as unsigned exactly when it has no block.
  lemma VerifiesExactly(c: Crypto, v: Json, s: Signer)
    ensures Verified(c, v) == Ok(Some(s)) <==>
      && v.Obj? && SIGNATURE in v.members && NamesSigner(c, v.members[SIGNATURE], s)
      && exists sig :: Certifies(c, v, s, sig)
    ensures Verified(c, v) == Ok(None) <==> v.Obj? && SIGNATURE !in v.members
  {
    if Verified(c, v) == Ok(Some(s)) {
      assert Certifies(c, v, s, v.members[SIGNATURE].members["sig"].text);
    }
  }

  // Every refusal names something that is wrong.
  lemma RefusalMeans(c: Crypto, v: Json)
    requires Verified(c, v).Err?
    ensures var e := Verified(c, v).error;
      if !v.Obj? then e == NotAnObject
      else if SIGNATURE !in v.members then false
      else
        var block := v.members[SIGNATURE];
        match e
        case BlockNotAnObject => !block.Obj?
        case MissingField(name) => name in {"alg", "keyId", "publicKey", "sig"} && Lacks(block, name)
        case UnknownAlgorithm => !Lacks(block, "alg") && !Says(block, "alg", "ed25519")
        case BadPublicKey => exists key :: Says(block, "publicKey", key) && !c.validKey(key)
        case KeyIdMismatch => exists key :: Says(block, "publicKey", key) && !Says(block, "keyId", c.keyId(key))
        case BadSignature => exists sig :: Says(block, "sig", sig) && !c.validSignature(sig)
        case NotCanonical => !Writable(Obj(v.members - {SIGNATURE}))
        case Forged => exists s, sig :: NamesSigner(c, block, s) && Says(block, "sig", sig) && !Certifies(c, v, s, sig)
        case NotAnObject => false
  {
    if v.Obj? && SIGNATURE in v.members && v.members[SIGNATURE].Obj? {
      var e, block := Verified(c, v).error, v.members[SIGNATURE];
      match e {
        case BadPublicKey => assert Says(block, "publicKey", block.members["publicKey"].text);
        case KeyIdMismatch => assert Says(block, "publicKey", block.members["publicKey"].text);
        case BadSignature => assert Says(block, "sig", block.members["sig"].text);
        case Forged =>
          var (s, sig) := ReadBlock(c, block).value;
          assert NamesSigner(c, block, s) && Says(block, "sig", sig) && !Certifies(c, v, s, sig);
        case _ =>
      }
    }
  }

  // Under one block, a second document verifies only if the signature also checks for that
  // document's own bytes, which differ as soon as any other member does.
  lemma TransplantedBlock(c: Crypto, a: Json, b: Json)
    requires a.Obj? && b.Obj? && SIGNATURE in a.members && SIGNATURE in b.members
    requires a.members[SIGNATURE] == b.members[SIGNATURE] && Unsigned(a) != Unsigned(b)
    requires Verified(c, a).Ok? && Verified(c, b).Ok?
    ensures Verified(c, a) == Verified(c, b) && SignableBytes(a) != SignableBytes(b)
    ensures var (signer, sig) := ReadBlock(c, a.members[SIGNATURE]).value;
      && c.check(signer.publicKey, SignableBytes(a).value, sig)
      && c.check(signer.publicKey, SignableBytes(b).value, sig)
  {
    SignableExactly(a, b);
  }

  // ----- the operations -----

  method ComputeSignable(v: Json) returns (r: Result<string, SignError>)
    ensures r == SignableBytes(v)
  {
    if !v.Obj? {
      return Err(NotAnObject);
    }
    var bytes := RustBytes(Obj(v.members - {SIGNATURE}));
    match bytes {
      case None => return Err(NotCanonical);
      case Some(b) => return Ok(b);
    }
  }

  // `signing_bytes`: the members kept are chosen one by one.
  method PythonSigningBytes(v: Json) returns (r: Result<string, SignError>)
    ensures r == SignableBytes(v)
  {
    if !v.Obj? {
      return Err(NotAnObject);
    }
    var stripped := map k | k in v.members && k != SIGNATURE :: v.members[k];
    assert Obj(stripped) == Unsigned(v);
    var bytes := PythonBytes(Obj(stripped));
    match bytes {
      case None => return Err(NotCanonical);
      case Some(b) => return Ok(b);
    }
  }

  class Document {
    var raw: Json

    constructor (raw: Json)
      ensures this.raw == raw
    {
      this.raw := raw;
    }

    // `sign_manifest`: on an error the document is left as it was.
    method Sign(c: Crypto, secret: string) returns (r: Option<SignError>)
      modifies this
      ensures match Signed(c, old(raw), secret)
              case Err(e) => r == Some(e) && raw == old(raw)
              case Ok(signed) => r == None && raw == signed
    {
      var bytes := ComputeSignable(raw);
      if bytes.Err? {
        return Some(bytes.error);
      }
      raw := Obj(raw.members[SIGNATURE := Block(c, secret, bytes.value)]);
      return None;
    }

    method Verify(c: Crypto) returns (r: Result<Option<Signer>, SignError>)
      ensures r == Verified(c, raw)
    {
      if !raw.Obj? {
        return Err(NotAnObject);
      }
      if SIGNATURE !in raw.members {
        return Ok(None);
      }
      var block := ReadBlock(c, raw.members[SIGNATURE]);
      if block.Err? {
        return Err(block.error);
      }
      var bytes := ComputeSignable(raw);
      if bytes.Err? {
        return Err(bytes.error);
      }
      var (signer, sig) := block.value;
      if c.check(signer.publicKey, bytes.value, sig) {
        return Ok(Some(signer));
      }
      return Err(Forged);
    }
  }
}
