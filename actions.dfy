/** The upload authorizer: the server action that checks a requested upload
    against the policy and, when it passes, asks the storage SDK for a
    pre-signed PUT URL bound to a freshly generated object key.

    The random bytes and the presigner are parameters: `random` stands for
    the 32 bytes `crypto.randomBytes(32)` returned, and `sign` for
    `getSignedUrl` applied to the module's S3 client, which either returns
    the URL or throws. */
module Actions {
  import opened Common
  import opened HexCodec

  /** The caller's request: declared MIME type, declared size, content checksum. */
  datatype SignedURLParams = SignedURLParams(fileType: string, fileSize: int, checksum: string)

  /** `{ failure: msg }` or `{ success: { url } }`. */
  datatype SignedURLResult = Failure(failure: string) | Success(url: string)

  /** The fields of the PutObjectCommand handed to the presigner. */
  datatype PutObjectCommand = PutObjectCommand(
    bucket: string,
    key: string,
    contentType: string,
    contentLength: int,
    checksumSHA256: string)

  /** The presigner: (command, expiresIn seconds) to a URL, or a throw. */
  type Signer = (PutObjectCommand, nat) -> Completion<string>

  const AllowedFileTypes: seq<string> := ["image/jpeg", "image/png", "image/webp", "image/gif"]

  /** Ten mebibytes; the source's comment beside it says "1 MB", the constant governs. */
  const MaxFileSize: int := 1048576 * 10

  /** Validity window of the pre-signed URL, in seconds. */
  const ExpiresIn: nat := 60

  const TypeNotAllowed: string := "File type not allowed"
  const SizeTooLarge: string := "File size too large"

  /** The object key: 32 random bytes written as lowercase hex. */
  function GenerateFileName(random: seq<byte>): (name: string)
    requires |random| == 32
    ensures |name| == 64 && IsLowerHex(name)
    ensures HexDecode(name) == Some(random)
  {
    DecodeEncode(random);
    HexEncode(random)
  }

  /** Distinct random bytes give distinct object keys, so keys collide only
      when the random source repeats itself. */
  lemma FileNamesDistinct(random1: seq<byte>, random2: seq<byte>)
    requires |random1| == 32 && |random2| == 32 && random1 != random2
    ensures GenerateFileName(random1) != GenerateFileName(random2)
  {
  }

  /** Whether the request passes both policy checks. */
  predicate Acceptable(params: SignedURLParams) {
    params.fileType in AllowedFileTypes && params.fileSize <= MaxFileSize
  }

  /** The command the authorizer builds for an accepted request. */
  function UploadCommand(bucket: string, params: SignedURLParams, random: seq<byte>): PutObjectCommand
    requires |random| == 32
  {
    PutObjectCommand(bucket, GenerateFileName(random), params.fileType, params.fileSize, params.checksum)
  }

  /** `getSignedURL`: the type check first, then the size check, each
      returning its failure at once; otherwise a key is generated and the
      presigner is asked for a URL valid for ExpiresIn seconds. A throw of
      the presigner propagates. */
  function GetSignedURL(bucket: string, params: SignedURLParams, random: seq<byte>, sign: Signer)
    : (r: Completion<SignedURLResult>)
    requires |random| == 32
    ensures r.Normal? && r.value.Failure? <==> !Acceptable(params)
    ensures r.Normal? && r.value.Failure? ==>
      r.value.failure == (if params.fileType in AllowedFileTypes then SizeTooLarge else TypeNotAllowed)
  {
    if params.fileType !in AllowedFileTypes then
      Normal(Failure(TypeNotAllowed))
    else if params.fileSize > MaxFileSize then
      Normal(Failure(SizeTooLarge))
    else
      match sign(UploadCommand(bucket, params, random), ExpiresIn)
      case Normal(url) => Normal(Success(url))
      case Thrown => Thrown
  }

  /** A type outside the allow-list gets the type failure, whatever the size. */
  lemma DisallowedTypeRejected(bucket: string, params: SignedURLParams, random: seq<byte>, sign: Signer)
    requires |random| == 32
    requires params.fileType !in AllowedFileTypes
    ensures GetSignedURL(bucket, params, random, sign) == Normal(Failure("File type not allowed"))
  {
  }

  /** An allowed type larger than 10485760 bytes gets the size failure. */
  lemma OversizeRejected(bucket: string, params: SignedURLParams, random: seq<byte>, sign: Signer)
    requires |random| == 32
    requires params.fileType in AllowedFileTypes && params.fileSize > 10485760
    ensures GetSignedURL(bucket, params, random, sign) == Normal(Failure("File size too large"))
  {
  }

  /** The size check is strict: exactly 10485760 bytes of an allowed type is
      never refused. */
  lemma SizeBoundaryAccepted(bucket: string, params: SignedURLParams, random: seq<byte>, sign: Signer)
    requires |random| == 32
    requires params.fileType in AllowedFileTypes && params.fileSize == 10485760
    ensures GetSignedURL(bucket, params, random, sign).Normal? ==>
            GetSignedURL(bucket, params, random, sign).value.Success?
  {
  }

  /** An accepted request returns the presigner's URL for a command that
      carries the caller's type, size and checksum unchanged, under a key
      made only from the random bytes, with a 60-second expiry. */
  lemma AcceptedIsSigned(bucket: string, params: SignedURLParams, random: seq<byte>, sign: Signer)
    requires |random| == 32 && Acceptable(params)
    ensures var cmd := UploadCommand(bucket, params, random);
      && cmd.contentType == params.fileType
      && cmd.contentLength == params.fileSize
      && cmd.checksumSHA256 == params.checksum
      && cmd.key == HexEncode(random)
      && GetSignedURL(bucket, params, random, sign) ==
         match sign(cmd, 60)
         case Normal(url) => Normal(Success(url))
         case Thrown => Thrown
  {
  }

  /** A failure consults neither the random bytes nor the presigner: no key
      is generated and no credential is requested, so any other bytes and
      any other presigner give the same failure. */
  lemma FailureMintsNothing(bucket: string, params: SignedURLParams, random: seq<byte>, sign: Signer,
                            random': seq<byte>, sign': Signer)
    requires |random| == 32 && |random'| == 32
    requires !Acceptable(params)
    ensures GetSignedURL(bucket, params, random, sign) == GetSignedURL(bucket, params, random', sign')
    ensures GetSignedURL(bucket, params, random, sign).Normal?
  {
  }
}
