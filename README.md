# Profile editor: upload authorization, photo upload and profile upsert

A model of the logic at the core of a small single-user profile editor:

- the **upload authorizer** (`getSignedURL`), a server action that checks a
  requested photo upload against an allow-list of image MIME types and a
  10 MiB size limit, in that order, and otherwise names a new object with 32
  random bytes written as hex and asks the storage SDK for a PUT URL valid
  for 60 seconds that carries the caller's type, size and checksum;
- the **photo upload in the profile form**: the lowercase hex encoding of the
  file's SHA-256 digest, the query stripping of the upload response URL
  (`split("?")[0]`), and `handleFileChange`, which decides whether the form's
  `profilePhoto` becomes the default photo, the uploaded object's URL, or
  stays as it was;
- the **profile API route**: POST validates the body and upserts the one
  profile row (id 1), GET returns that row or a 404.

Files:

- `common.dfy` (module `Common`): `Option`, `Completion` (a step that returned
  normally or threw) and the five profile fields.
- `hex.dfy` (module `HexCodec`): `toString(16)`, `padStart`, the per-byte and
  whole-digest hex encoding, a decoder, and the two round trips.
- `actions.dfy` (module `Actions`): the policy constants, the object key and
  `GetSignedURL` as a pure function of the request, the random bytes and the
  presigner.
- `form.dfy` (module `Form`): `split`/`join`, the query stripping, the outcome
  of one upload attempt, and class `ProfileForm`, whose `HandleFileChange`
  updates the form's values and chosen file name in place.
- `route.dfy` (module `ProfileRoute`): class `ProfileStore`, whose field
  `users: map<int, User>` is the `db.user` table, with `Post` and `Get`.

Where the code and its comments disagree, the model follows the code: the
size limit is the constant `1048576 * 10` (10485760 bytes) even though the
comment beside it says "1 MB"; the failure texts are the code's ("File type
not allowed", "File size too large"); and a disallowed type that is also too
large gets the type failure, because the type check comes first.

Everything the code awaits from outside is a parameter: the 32 random bytes,
the presigner (a function from the command and the expiry to a URL or a
throw), the file's SHA-256 digest, the PUT's response, the email and URL
checks of the schema library, and which database call (if any) throws.

## Model

| member | source | states |
|---|---|---|
| `HexCodec.HexDigit` | src/components/ProfileForm.tsx:74 | the digit written for a value below 16 is a lowercase hex character that reads back as that value |
| `HexCodec.HexDigitOfValue` | src/components/ProfileForm.tsx:74 | every lowercase hex character is the digit written for its own value |
| `HexCodec.ToRadix16` | src/components/ProfileForm.tsx:74 | `toString(16)` of a non-negative integer is a non-empty string of lowercase hex digits |
| `HexCodec.ToRadix16Numeral` | src/components/ProfileForm.tsx:74 | that string denotes the number in base 16 and has no leading zero unless it is "0" |
| `HexCodec.PadStart` | src/components/ProfileForm.tsx:74 | `padStart` reaches the target width (or keeps a longer string), keeps the string as its suffix and fills the front with the fill character |
| `HexCodec.ByteToHex` | src/components/ProfileForm.tsx:74 | `b.toString(16).padStart(2, "0")` is always exactly two lowercase digits: the high nibble's, then the low nibble's |
| `HexCodec.HexEncode` | src/components/ProfileForm.tsx:72-76 | the encoded digest has two characters per byte, all lowercase hex, so 32 bytes give 64 characters |
| `HexCodec.HexEncodeAt` | src/components/ProfileForm.tsx:73-75 | byte i is encoded, zero-padded, at characters 2i and 2i+1 |
| `HexCodec.HexDecode` | src/components/ProfileForm.tsx:73-75 | the decoder accepts exactly the even-length strings of lowercase hex digits, giving half as many bytes |
| `HexCodec.DecodeEncode` | src/components/ProfileForm.tsx:73-75 | decoding the encoding gives back the original bytes |
| `HexCodec.EncodeDecode` | src/components/ProfileForm.tsx:73-75 | every string the decoder accepts is the encoding of what it decodes to |
| `HexCodec.HexEncodeInjective` | src/components/ProfileForm.tsx:73-75 | distinct byte strings have distinct encodings |
| `Actions.GenerateFileName` | src/actions/actions.ts:24-25 | the object key is 64 lowercase hex characters that decode to the 32 random bytes |
| `Actions.FileNamesDistinct` | src/actions/actions.ts:24-25 | distinct random bytes give distinct object keys |
| `Actions.GetSignedURL` | src/actions/actions.ts:27-56 | the result is a failure exactly when the type is not allowed or the size exceeds 10485760, and the failure names the type when the type is the problem, else the size |
| `Actions.DisallowedTypeRejected` | src/actions/actions.ts:20-35 | a type outside {image/jpeg, image/png, image/webp, image/gif} yields exactly "File type not allowed", whatever the size |
| `Actions.OversizeRejected` | src/actions/actions.ts:22-39 | an allowed type larger than 10485760 bytes yields exactly "File size too large" |
| `Actions.SizeBoundaryAccepted` | src/actions/actions.ts:37 | exactly 10485760 bytes of an allowed type is never refused (the comparison is strict) |
| `Actions.AcceptedIsSigned` | src/actions/actions.ts:41-55 | an accepted request returns the presigner's URL as success (or its throw) for a command carrying the caller's type, size and checksum unchanged, a key made only from the random bytes, and a 60-second expiry |
| `Actions.FailureMintsNothing` | src/actions/actions.ts:33-49 | a failure returns normally and is the same for any random bytes and any presigner: no key is generated and no signing is requested |
| `Form.Split` | src/components/ProfileForm.tsx:112 | `split` gives at least one piece, no piece contains the separator, and the first piece is the prefix up to the first separator |
| `Form.JoinSplit` | src/components/ProfileForm.tsx:112 | joining the pieces with the separator gives back the string |
| `Form.StripQuery` | src/components/ProfileForm.tsx:112 | the stripped URL is a prefix of the URL with no '?', followed in the URL by '?' when shorter, and the whole URL when it has no '?' |
| `Form.PhotoAfterShape` | src/components/ProfileForm.tsx:83-122 | after the handler the photo is the old one, the default one, or an uploaded URL without '?'; a rejection keeps the old one |
| `Form.NoFileGivesDefault` | src/components/ProfileForm.tsx:82-122 | with no file selected the photo becomes https://github.com/shadcn.png |
| `Form.RefusedFileKeepsPhoto` | src/components/ProfileForm.tsx:89-101 | a file the server refuses, for its type or its size, ends the attempt as a rejection, whatever the PUT would do, and the photo is unchanged |
| `Form.ErrorGivesDefault` | src/components/ProfileForm.tsx:115-122 | a throw while hashing, while signing or during the PUT to the signed URL sets the photo to the default |
| `Form.PutResolvedGivesStrippedUrl` | src/components/ProfileForm.tsx:105-113 | once the PUT resolves, with any status, the photo becomes the response URL without its query string |
| `Form.ProfileForm.constructor` | src/components/ProfileForm.tsx:39-48 | the form starts with empty names, email and address, the default photo and no file name |
| `Form.ProfileForm.HandleFileChange` | src/components/ProfileForm.tsx:80-123 | the file name is recorded when a file is chosen; only `profilePhoto` among the values changes, to what the attempt's outcome dictates |
| `ProfileRoute.UpsertStoresSubmitted` | src/app/api/profile/route.ts:19-31 | after the upsert row 1 exists and holds exactly the five submitted fields, whether or not it existed before; other rows are unchanged and no other key is added |
| `ProfileRoute.UpsertIdempotent` | src/app/api/profile/route.ts:19-31 | repeating the same upsert leaves the table unchanged |
| `ProfileRoute.UpsertKeyedById` | src/app/api/profile/route.ts:20-30 | the upsert keeps every row stored under its own id |
| `ProfileRoute.ProfileStore.Post` | src/app/api/profile/route.ts:4-39 | unparseable body: 500; body the schema refuses: 400 "Invalid data" and the table untouched even if the database would fail; database throw: 500 and the table untouched; otherwise the table is the upsert of the old one and the response carries row 1 |
| `ProfileRoute.ProfileStore.Get` | src/app/api/profile/route.ts:42-56 | 500 on a database throw, 404 "User not found" when row 1 is absent, otherwise row 1 |

## Left out

- The S3 client, `PutObjectCommand` and the presigner `getSignedUrl`: the presigner is a parameter from the command and the expiry to a URL or a throw; bucket, region and credentials are not modelled beyond the bucket name passed in.
- `crypto.randomBytes` and `crypto.subtle.digest`: the random bytes are an arbitrary 32-byte parameter and the digest an arbitrary byte sequence (or a throw).
- The network hop of the server action: the form calls `Actions.GetSignedURL` directly.
- `fetch` for the PUT: a parameter from the signed URL to a response (status and final URL) or a throw.
- The schema library's email and URL checks: the parameters `isEmail` and `isUrl`; the `min(1)` checks are modelled.
- `ProfileRoute.ProfileStore.Post`: a throw from `update` or `create` is taken to leave the table unchanged (each is one atomic statement); a concurrent request creating row 1 between the read and the create is not modelled.
- Persistence, the JSON wire format and the response headers: a response is its status and a body that is either text or a message with the user row.
- `fileSize` is an integer; JavaScript numbers that are fractional, infinite or NaN are not modelled.
- `Form.Split` models `split` with a one-character separator only, which is the only use.
- `HexCodec.HexDecode` has no counterpart in the code; it is there to state that the encoding is decodable.
- Logging, toasts, React state hooks other than the form values and the file name, `localStorage`, `onSubmit`, the user context, and all rendering.
