/** The encryption boundary for protected health information (PHI): string
    fields and string arrays are encrypted by the key management service under
    a fixed encryption context and carried as base64 text.

    The service (`Kms`, for the configured key) and base64 (`Base64`, the
    standard alphabet with padding of section 4 of RFC 4648) are oracles; what
    the boundary relies on them for is stated by `KmsSound` and `Base64Sound`. */
module Encryption {
  import opened Common

  type Blob = seq<bv8>

  type EncryptionContext = map<string, string>

  /** The context bound to every encryption and required by every decryption. */
  const PhiContext: EncryptionContext := map["Purpose" := "PHI-Encryption", "Service" := "Therma-Backend"]

  /** The service's Encrypt and Decrypt calls for the configured key. The
      conversions between a Go string and its bytes are lossless and folded in. */
  datatype Kms = Kms(
    encrypt: (string, EncryptionContext) -> Result<Blob, Error>,
    decrypt: (Blob, EncryptionContext) -> Result<string, Error>)

  datatype Base64 = Base64(encode: Blob -> string, decode: string -> Result<Blob, Error>)

  /** Base64 decodes what it encodes, and encodes a non-empty blob as non-empty text. */
  ghost predicate Base64Sound(b64: Base64)
  {
    forall blob :: b64.decode(b64.encode(blob)) == Success(blob) && (blob != [] ==> b64.encode(blob) != "")
  }

  /** Under one context, the service decrypts what it encrypted, and its
      ciphertext is never empty. */
  ghost predicate KmsSound(kms: Kms, context: EncryptionContext)
  {
    forall p :: kms.encrypt(p, context).Success? ==>
      kms.encrypt(p, context).value != [] && kms.decrypt(kms.encrypt(p, context).value, context) == Success(p)
  }

  /** Encrypts one field. The empty string stands for itself: the service is
      not consulted, so the answer is the same for every service. */
  function EncryptPHI(kms: Kms, b64: Base64, plaintext: string): (r: Result<string, Error>)
    ensures plaintext == "" ==> r == Success("")
    ensures plaintext != "" ==> (r.Success? <==> kms.encrypt(plaintext, PhiContext).Success?)
    ensures plaintext != "" && r.Success? ==> r.value == b64.encode(kms.encrypt(plaintext, PhiContext).value)
  {
    if plaintext == "" then Success("")
    else
      match kms.encrypt(plaintext, PhiContext)
      case Failure(e) => Failure(Wrap("failed to encrypt PHI", e))
      case Success(blob) => Success(b64.encode(blob))
  }

  /** Decrypts one field. The empty string stands for itself; text that is not
      base64 is refused before the service is consulted. */
  function DecryptPHI(kms: Kms, b64: Base64, ciphertext: string): (r: Result<string, Error>)
    ensures ciphertext == "" ==> r == Success("")
    ensures ciphertext != "" && b64.decode(ciphertext).Failure? ==>
              r == Failure(Wrap("failed to decode ciphertext", b64.decode(ciphertext).error))
    ensures ciphertext != "" && b64.decode(ciphertext).Success? ==>
              (r.Success? <==> kms.decrypt(b64.decode(ciphertext).value, PhiContext).Success?)
    ensures ciphertext != "" && r.Success? ==> r.value == kms.decrypt(b64.decode(ciphertext).value, PhiContext).value
  {
    if ciphertext == "" then Success("")
    else
      match b64.decode(ciphertext)
      case Failure(e) => Failure(Wrap("failed to decode ciphertext", e))
      case Success(blob) =>
        match kms.decrypt(blob, PhiContext)
        case Failure(e) => Failure(Wrap("failed to decrypt PHI", e))
        case Success(plaintext) => Success(plaintext)
  }

  /** Encrypt and decrypt bind the same context, so a field decrypts to the
      plaintext it was encrypted from, the empty string included. */
  lemma {:induction false} RoundTrip(kms: Kms, b64: Base64, s: string)
    requires KmsSound(kms, PhiContext) && Base64Sound(b64)
    requires EncryptPHI(kms, b64, s).Success?
    ensures DecryptPHI(kms, b64, EncryptPHI(kms, b64, s).value) == Success(s)
  {
    if s != "" {
      var blob := kms.encrypt(s, PhiContext).value;
      assert blob != [] && kms.decrypt(blob, PhiContext) == Success(s);
      assert b64.decode(b64.encode(blob)) == Success(blob) && b64.encode(blob) != "";
    }
  }

  // ---------------------------------------------------------------------------
  // Arrays of fields.

  datatype Direction = Encrypting | Decrypting

  function Apply(dir: Direction, kms: Kms, b64: Base64, s: string): Result<string, Error>
  {
    match dir
    case Encrypting => EncryptPHI(kms, b64, s)
    case Decrypting => DecryptPHI(kms, b64, s)
  }

  /** The decimal digits of `n`, as `%d` prints them. */
  function Decimal(n: nat): (s: string)
    ensures |s| > 0
  {
    if n < 10 then ["0123456789"[n]] else Decimal(n / 10) + ["0123456789"[n % 10]]
  }

  function ElementMsg(dir: Direction, i: nat): string
  {
    match dir
    case Encrypting => "failed to encrypt array element " + Decimal(i)
    case Decrypting => "failed to decrypt array element " + Decimal(i)
  }

  /** Specification of the array variants: element-wise, and one failing
      element fails the whole call, which reports the first failing index. */
  function MapAll(dir: Direction, kms: Kms, b64: Base64, xs: seq<string>): (r: Result<seq<string>, Error>)
    ensures r.Success? <==> forall i :: 0 <= i < |xs| ==> Apply(dir, kms, b64, xs[i]).Success?
    ensures r.Success? ==> |r.value| == |xs|
    ensures r.Success? ==> forall i :: 0 <= i < |xs| ==> r.value[i] == Apply(dir, kms, b64, xs[i]).value
    decreases |xs|
  {
    if xs == [] then Success([])
    else
      var last := |xs| - 1;
      match MapAll(dir, kms, b64, xs[..last])
      case Failure(e) => Failure(e)
      case Success(done) =>
        match Apply(dir, kms, b64, xs[last])
        case Failure(e) => Failure(Wrap(ElementMsg(dir, last), e))
        case Success(y) => Success(done + [y])
  }

  /** A failure is the error of the first element that fails, wrapped with its index. */
  lemma {:induction false} MapAllFailsAtFirst(dir: Direction, kms: Kms, b64: Base64, xs: seq<string>, i: nat)
    requires i < |xs|
    requires forall j :: 0 <= j < i ==> Apply(dir, kms, b64, xs[j]).Success?
    requires Apply(dir, kms, b64, xs[i]).Failure?
    ensures MapAll(dir, kms, b64, xs) == Failure(Wrap(ElementMsg(dir, i), Apply(dir, kms, b64, xs[i]).error))
    decreases |xs|
  {
    var last := |xs| - 1;
    var init := xs[..last];
    if i == last {
      assert forall j :: 0 <= j < |init| ==> init[j] == xs[j];
      assert MapAll(dir, kms, b64, init).Success?;
      assert MapAll(dir, kms, b64, xs) == Failure(Wrap(ElementMsg(dir, last), Apply(dir, kms, b64, xs[last]).error));
    } else {
      assert init[i] == xs[i];
      assert forall j :: 0 <= j < i ==> init[j] == xs[j];
      MapAllFailsAtFirst(dir, kms, b64, init, i);
      PrefixFailureIsFinal(dir, kms, b64, xs, last);
    }
  }

  /** A failure of some prefix is the failure of the whole sequence. */
  lemma {:induction false} PrefixFailureIsFinal(dir: Direction, kms: Kms, b64: Base64, xs: seq<string>, k: nat)
    requires k <= |xs|
    requires MapAll(dir, kms, b64, xs[..k]).Failure?
    ensures MapAll(dir, kms, b64, xs) == MapAll(dir, kms, b64, xs[..k])
    decreases |xs| - k
  {
    if k < |xs| {
      assert xs[..k+1][..k] == xs[..k];
      PrefixFailureIsFinal(dir, kms, b64, xs, k + 1);
    } else {
      assert xs[..k] == xs;
    }
  }

  /** Arrays round-trip element by element. */
  lemma {:induction false} ArrayRoundTrip(kms: Kms, b64: Base64, plaintexts: seq<string>)
    requires KmsSound(kms, PhiContext) && Base64Sound(b64)
    requires MapAll(Encrypting, kms, b64, plaintexts).Success?
    ensures MapAll(Decrypting, kms, b64, MapAll(Encrypting, kms, b64, plaintexts).value) == Success(plaintexts)
  {
    var cs := MapAll(Encrypting, kms, b64, plaintexts).value;
    forall i | 0 <= i < |cs|
      ensures Apply(Decrypting, kms, b64, cs[i]) == Success(plaintexts[i])
    {
      RoundTrip(kms, b64, plaintexts[i]);
    }
    var r := MapAll(Decrypting, kms, b64, cs);
    assert r.Success?;
    assert r.value == plaintexts;
  }

  /** `EncryptPHIArray` and `DecryptPHIArray`: fill a preallocated array,
      returning early, with no array, at the first failing element. */
  method TransformArray(dir: Direction, kms: Kms, b64: Base64, xs: seq<string>) returns (r: Result<seq<string>, Error>)
    ensures r == MapAll(dir, kms, b64, xs)
  {
    if |xs| == 0 {
      return Success([]);
    }
    var out := new string[|xs|];
    for i := 0 to |xs|
      invariant MapAll(dir, kms, b64, xs[..i]) == Success(out[..i])
    {
      var y := Apply(dir, kms, b64, xs[i]);
      if y.Failure? {
        assert xs[..i+1][..i] == xs[..i];
        PrefixFailureIsFinal(dir, kms, b64, xs, i + 1);
        return Failure(Wrap(ElementMsg(dir, i), y.error));
      }
      out[i] := y.value;
      assert xs[..i+1][..i] == xs[..i];
      assert out[..i+1] == out[..i] + [y.value];
    }
    assert xs[..|xs|] == xs && out[..|xs|] == out[..];
    return Success(out[..]);
  }

  method EncryptPHIArray(kms: Kms, b64: Base64, plaintexts: seq<string>) returns (r: Result<seq<string>, Error>)
    ensures r == MapAll(Encrypting, kms, b64, plaintexts)
    ensures r.Success? ==> (|r.value| == |plaintexts|
                            && forall i :: 0 <= i < |plaintexts| ==> r.value[i] == EncryptPHI(kms, b64, plaintexts[i]).value)
    ensures r.Failure? <==> exists i :: 0 <= i < |plaintexts| && EncryptPHI(kms, b64, plaintexts[i]).Failure?
  {
    r := TransformArray(Encrypting, kms, b64, plaintexts);
  }

  method DecryptPHIArray(kms: Kms, b64: Base64, ciphertexts: seq<string>) returns (r: Result<seq<string>, Error>)
    ensures r == MapAll(Decrypting, kms, b64, ciphertexts)
    ensures r.Success? ==> (|r.value| == |ciphertexts|
                            && forall i :: 0 <= i < |ciphertexts| ==> r.value[i] == DecryptPHI(kms, b64, ciphertexts[i]).value)
    ensures r.Failure? <==> exists i :: 0 <= i < |ciphertexts| && DecryptPHI(kms, b64, ciphertexts[i]).Failure?
  {
    r := TransformArray(Decrypting, kms, b64, ciphertexts);
  }
}
