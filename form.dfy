/** The profile form's photo upload: the query stripping applied to the
    upload response URL, and `handleFileChange`, which decides what the
    form's `profilePhoto` field becomes after a file is chosen.

    Everything the handler awaits is a parameter: `digest` is the SHA-256
    of the file's bytes (or a throw), `random` and `sign` are what the
    server action uses (see Actions.GetSignedURL), and `put` is the PUT of
    the file to the signed URL, giving the response (or a throw). */
module Form {
  import opened Common
  import opened HexCodec
  import Actions

  /** The form's default photo, also used when an upload goes wrong. */
  const DefaultPhoto: string := "https://github.com/shadcn.png"

  /** The form's initial values. */
  const DefaultValues: ProfileData := ProfileData("", "", "", "", DefaultPhoto)

  /** The file the input reports: its name, size in bytes and MIME type. */
  datatype SelectedFile = SelectedFile(name: string, size: int, fileType: string)

  /** What `fetch` resolved to for the PUT: its status and its final URL. */
  datatype PutResponse = PutResponse(status: int, url: string)

  /** `s.split(sep)` for a one-character separator: the maximal runs of
      characters other than sep, in order, including empty ones. */
  function Split(s: string, sep: char): (parts: seq<string>)
    ensures |parts| >= 1
    ensures forall i :: 0 <= i < |parts| ==> sep !in parts[i]
    ensures parts[0] <= s
    ensures |parts[0]| < |s| ==> s[|parts[0]|] == sep
  {
    if s == [] then [[]]
    else
      var rest := Split(s[1..], sep);
      if s[0] == sep then [[]] + rest
      else [[s[0]] + rest[0]] + rest[1..]
  }

  /** `parts.join(sep)`, the inverse of Split. */
  function Join(parts: seq<string>, sep: char): string
    requires |parts| >= 1
  {
    if |parts| == 1 then parts[0] else parts[0] + [sep] + Join(parts[1..], sep)
  }

  /** Splitting loses nothing: joining the pieces back gives the string. */
  lemma {:induction false} JoinSplit(s: string, sep: char)
    ensures Join(Split(s, sep), sep) == s
  {
    if s != [] {
      var rest := Split(s[1..], sep);
      JoinSplit(s[1..], sep);
      if s[0] == sep {
        assert Split(s, sep)[1..] == rest;
      } else if |rest| == 1 {
        assert Split(s, sep) == [[s[0]] + rest[0]];
      } else {
        var parts := Split(s, sep);
        assert parts[1..] == rest[1..];
        assert Join(rest, sep) == rest[0] + [sep] + Join(rest[1..], sep);
      }
    }
  }

  /** `url.split("?")[0]`: the URL up to, and without, its first '?'. */
  function StripQuery(url: string): (r: string)
    ensures '?' !in r
    ensures r <= url
    ensures '?' !in url ==> r == url
    ensures |r| < |url| ==> url[|r|] == '?'
  {
    Split(url, '?')[0]
  }

  /** How the upload attempt in `handleFileChange` ended. */
  datatype UploadOutcome =
    | NoFile                   // no file was selected
    | Rejected                 // getSignedURL returned a failure
    | Errored                  // hashing, signing or the PUT threw
    | Uploaded(responseUrl: string)  // the PUT resolved, whatever its status

  /** The steps of `handleFileChange` in order, each of which may throw. */
  function Attempt(file: Option<SelectedFile>, digest: Completion<seq<byte>>, bucket: string,
                   random: seq<byte>, sign: Actions.Signer, put: string -> Completion<PutResponse>)
    : UploadOutcome
    requires |random| == 32
  {
    if file.None? then NoFile
    else
      match digest
      case Thrown => Errored
      case Normal(hash) =>
        var params := Actions.SignedURLParams(file.value.fileType, file.value.size, HexEncode(hash));
        match Actions.GetSignedURL(bucket, params, random, sign)
        case Thrown => Errored
        case Normal(Failure(_)) => Rejected
        case Normal(Success(url)) =>
          match put(url)
          case Thrown => Errored
          case Normal(resp) => Uploaded(resp.url)
  }

  /** The value `profilePhoto` holds once the handler is done. */
  function PhotoAfter(current: string, outcome: UploadOutcome): string
  {
    match outcome
    case NoFile => DefaultPhoto
    case Rejected => current
    case Errored => DefaultPhoto
    case Uploaded(responseUrl) => StripQuery(responseUrl)
  }

  /** The photo is kept, reset to the default, or replaced by a URL with no query string. */
  lemma PhotoAfterShape(current: string, outcome: UploadOutcome)
    ensures var photo := PhotoAfter(current, outcome);
      photo == current || photo == DefaultPhoto || ('?' !in photo && outcome.Uploaded?)
    ensures outcome.Rejected? ==> PhotoAfter(current, outcome) == current
  {
  }

  /** With no file selected the photo goes back to the default. */
  lemma NoFileGivesDefault(current: string, digest: Completion<seq<byte>>, bucket: string,
                           random: seq<byte>, sign: Actions.Signer, put: string -> Completion<PutResponse>)
    requires |random| == 32
    ensures PhotoAfter(current, Attempt(None, digest, bucket, random, sign, put)) == "https://github.com/shadcn.png"
  {
  }

  /** Whether the server action would accept this file (its type and size). */
  predicate FileAcceptable(file: SelectedFile, hash: seq<byte>) {
    Actions.Acceptable(Actions.SignedURLParams(file.fileType, file.size, HexEncode(hash)))
  }

  /** A file the server refuses, for its type or for its size, leaves the
      photo as it was, and the PUT is never attempted. */
  lemma RefusedFileKeepsPhoto(current: string, file: SelectedFile, hash: seq<byte>, bucket: string,
                              random: seq<byte>, sign: Actions.Signer, put: string -> Completion<PutResponse>,
                              put': string -> Completion<PutResponse>)
    requires |random| == 32
    requires !FileAcceptable(file, hash)
    ensures Attempt(Some(file), Normal(hash), bucket, random, sign, put) == Rejected
    ensures Attempt(Some(file), Normal(hash), bucket, random, sign, put') == Rejected
    ensures PhotoAfter(current, Rejected) == current
  {
  }

  /** A throw while hashing, while signing or during the PUT to the signed
      URL resets the photo to the default. */
  lemma ErrorGivesDefault(current: string, file: SelectedFile, digest: Completion<seq<byte>>, bucket: string,
                          random: seq<byte>, sign: Actions.Signer, put: string -> Completion<PutResponse>,
                          signed: string)
    requires |random| == 32
    requires || digest.Thrown?
             || Actions.GetSignedURL(bucket, Actions.SignedURLParams(file.fileType, file.size, HexEncode(digest.value)),
                                     random, sign).Thrown?
             || (&& Actions.GetSignedURL(bucket, Actions.SignedURLParams(file.fileType, file.size, HexEncode(digest.value)),
                                         random, sign) == Normal(Actions.Success(signed))
                 && put(signed).Thrown?)
    ensures PhotoAfter(current, Attempt(Some(file), digest, bucket, random, sign, put)) == DefaultPhoto
  {
  }

  /** Once the PUT resolves, the photo becomes the response URL without its
      query string; the status is not looked at, so a refused PUT counts too. */
  lemma PutResolvedGivesStrippedUrl(current: string, file: SelectedFile, hash: seq<byte>, bucket: string,
                                    random: seq<byte>, sign: Actions.Signer, put: string -> Completion<PutResponse>,
                                    signed: string, status: int, responseUrl: string)
    requires |random| == 32
    requires Actions.GetSignedURL(bucket, Actions.SignedURLParams(file.fileType, file.size, HexEncode(hash)),
                                  random, sign) == Normal(Actions.Success(signed))
    requires put(signed) == Normal(PutResponse(status, responseUrl))
    ensures var photo := PhotoAfter(current, Attempt(Some(file), Normal(hash), bucket, random, sign, put));
      && photo == StripQuery(responseUrl)
      && '?' !in photo
      && photo <= responseUrl
  {
    assert Attempt(Some(file), Normal(hash), bucket, random, sign, put) == Uploaded(responseUrl);
  }

  /** The form's state: its five values and the chosen file's name. */
  class ProfileForm {
    var values: ProfileData
    var fileName: Option<string>

    constructor ()
      ensures values == DefaultValues && fileName == None
    {
      values := DefaultValues;
      fileName := None;
    }

    /** `handleFileChange`: records the file's name, hashes the file, asks
        for a signed URL, PUTs the file and stores the resulting URL. A
        failure from getSignedURL returns early without touching the photo;
        any throw leaves `newProfileUrl` at the default, which is stored. */
    method HandleFileChange(file: Option<SelectedFile>, digest: Completion<seq<byte>>, bucket: string,
                            random: seq<byte>, sign: Actions.Signer, put: string -> Completion<PutResponse>)
      requires |random| == 32
      modifies this
      ensures fileName == if file.Some? then Some(file.value.name) else old(fileName)
      ensures values == old(values).(profilePhoto :=
                PhotoAfter(old(values.profilePhoto), Attempt(file, digest, bucket, random, sign, put)))
    {
      var newProfileUrl := DefaultPhoto;
      if file.Some? {
        fileName := Some(file.value.name);
        // try { ... } catch { }: a Thrown step skips the rest of the block
        if digest.Normal? {
          var checkSum := HexEncode(digest.value);
          var params := Actions.SignedURLParams(file.value.fileType, file.value.size, checkSum);
          var signedURLResult := Actions.GetSignedURL(bucket, params, random, sign);
          if signedURLResult.Normal? {
            if signedURLResult.value.Failure? {
              return;
            }
            var resp := put(signedURLResult.value.url);
            if resp.Normal? {
              var newUrl := StripQuery(resp.value.url);
              newProfileUrl := newUrl;
            }
          }
        }
      }
      values := values.(profilePhoto := newProfileUrl);
    }
  }
}
