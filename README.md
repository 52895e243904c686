# Secure upload backend, modelled in Dafny

This project models the core of the FastAPI backend in
`secure_upload_backend/main.py`: user registration and login over an
in-memory user registry, bearer tokens (an HS256 JSON Web Token, RFC 7519)
issued at login and checked on every protected request, and a per-user
file store that keeps every upload in one flat directory under the name
`username + "_" + filename`.

Modules:

- `Http` (http.dfy): `Option`, the endpoint outcome `Result`, and `HttpError`
  (status and detail) for the exceptions the endpoints raise.
- `Security` (security.dfy): the password hasher, the token record
  `{claims, exp, sig}`, `CreateAccessToken` and `Decode`. The hasher and the
  MAC are parameters (`Hasher`, `Signer`). The only assumption on the hasher
  is `Sound`: a hash verifies its own password. The hasher's random salt is an
  explicit `Salt` argument. A token decodes only when its signature equals
  `sign(secret, claims, exp)` and the current time is before `exp`
  (RFC 7519 section 4.1.4). The clock is an integer `now`, in seconds.
- `Storage` (storage.dfy): the upload directory as a `map` from storage name
  to bytes, the naming convention, the Listing specification, and the lemmas
  that say exactly when two users' files can collide.
- `Backend` (backend.dfy): class `Server`, whose fields `users` (the registry)
  and `files` (the directory contents) the endpoint methods update in place.
  `GetCurrentUser` is the token gate. `Register`, `Login`, `UploadFile` and
  `ListFiles` are the endpoints, and the last two run behind the gate as the
  source's dependency does. `ListFiles` walks the directory in an unspecified
  order with a loop and an invariant over the names visited so far. Client
  methods replay the smoke script and a two-user scenario.

Owner isolation. The comment beside the storage name says that the username
prefix keeps users from overwriting each other. It holds whenever neither
username contains `_` or `/`, the file names contain no `/`, and the upload
directory compares names exactly (case-sensitive, without Unicode
normalisation, with `/` the only separator, as on Linux). The exact condition
on usernames is the one `ListingsOverlapIff` states:

- `ListingsOverlapIff` states exactly when two users' listings can share a
  stored name.
- `SeparatorFreeIsolated`, `NoOverwriteAcrossUsers` and
  `UploadKeepsOtherListings` prove the conditional claim for the directory
  as a flat table of names (`PlainUpload` is the no-`/` condition).
- `CrossUserOverwrite` shows user `a` with file `b_c` and user `a_b` with
  file `c` writing the same stored name.
- `CrossUserListing` shows the listing of `a` reporting a file uploaded by
  `a_b`.
- A second counterexample lies outside the flat table: the storage name is
  joined to the directory as a path, so user `./bob` uploading `f` opens
  `bob_f` and replaces the file of user `bob`, while its own listing stays
  empty. The model does not resolve paths (see "## Left out").

The model keeps these behaviours of the code, which a stricter design would
refuse:

- A duplicate username gets status 400, not a conflict status.
- Empty usernames and passwords are accepted.
- File names containing `_` are accepted.
- A second upload of the same file name overwrites the first.

## Model

| member | source | states |
|---|---|---|
| Security.HashThenVerify | secure_upload_backend/main.py:95-130 | assumed, not proved: the one hasher property the model takes as given (`Sound`), that verify_password accepts the password get_password_hash hashed, whatever the salt |
| Security.CreateAccessToken | secure_upload_backend/main.py:132-164 | the token's claims are the caller's data, with any exp claim replaced by the expiry. The expiry is now + delta for a non-zero delta and now + 30 minutes otherwise. The token is signed under the secret. The caller's data is a value and is not changed |
| Security.Decode | secure_upload_backend/main.py:195-208 | a token decodes to its claims iff its signature is the secret's MAC of its payload and now < exp. A bad signature is reported as such even when the token is also expired, and expiry is a separate failure |
| Security.TamperedSignatureRejected | secure_upload_backend/main.py:197-208 | replacing the signature of a valid token makes decoding fail with an invalid signature |
| Security.ForeignSecretRejected | secure_upload_backend/main.py:197-208 | a token signed under another secret is refused with an invalid signature exactly when the server's MAC of its payload differs from its signature; nothing more can be said of an abstract MAC |
| Backend.Server.constructor | secure_upload_backend/main.py:64 | the registry starts empty and the file store holds whatever the upload directory already contains |
| Backend.Server.GetCurrentUser | secure_upload_backend/main.py:189-218 | returns a user iff a token was sent, its signature verifies, now < exp, sub is present and sub is a registered username. The user returned is the record filed under sub, and its username equals sub. Every failure is the same 401 "Could not validate credentials", except a missing token, which gets 401 "Not authenticated" |
| Backend.Server.Register | secure_upload_backend/main.py:255-269 | a taken username gets 400 "Username already registered" and the registry is unchanged. Otherwise exactly the new key is added, with username = key and hashed_password = hash(password, salt), and every other record is unchanged; records stay filed under their own usernames |
| Backend.Server.Login | secure_upload_backend/main.py:292-307 | succeeds iff the user exists and verify(password, stored hash) holds. Unknown user and wrong password get the same 401 "Incorrect username or password". On success the token type is bearer, the claims are exactly sub = username, exp = now + 30 minutes, and the token is signed |
| Backend.Server.UploadFile | secure_upload_backend/main.py:309-339 | succeeds iff the gate accepts the token, and otherwise fails with the gate's error and changes nothing. On success the store maps the owner's storage name to exactly the uploaded bytes, replacing earlier bytes, and no other name changes. The response names the file and the owner |
| Backend.Server.ListFiles | secure_upload_backend/main.py:341-386 | succeeds iff the gate accepts the token. On success it returns, without duplicates and in some order, exactly the entries {name: s minus the owner prefix, size: byte length of s} for every stored name s starting with the owner's username and "_" |
| Storage.OwnerPrefix | secure_upload_backend/main.py:372 | the prefix a user's storage names start with is the username followed by exactly one "_" |
| Storage.Listing | secure_upload_backend/main.py:365-386 | the listing of u holds the entry of every stored name that starts with u and "_", and nothing that does not come from such a name |
| Storage.StorageName | secure_upload_backend/main.py:331 | the storage name starts with the owner prefix and the rest of it is the uploaded file name |
| Storage.OriginalName | secure_upload_backend/main.py:380 | stripping len(username)+1 characters recovers the file name that was stored |
| Storage.OriginalNameInjective | secure_upload_backend/main.py:372-383 | two stored names listed for one user never report the same name |
| Storage.Store | secure_upload_backend/main.py:331-336 | after writing, the storage name maps to exactly the new bytes, and every other name keeps its bytes |
| Storage.ListingAfterStore | secure_upload_backend/main.py:331-383 | for a username and file name without "/": after an upload the owner's listing is the old listing without the replaced file, plus {name: f, size: the new byte count} |
| Storage.UploadThenListed | secure_upload_backend/main.py:331-383 | for a username and file name without "/": upload-then-list for u contains {name: f, size: the byte count of the upload} |
| Storage.ListingsOverlapIff | secure_upload_backend/main.py:329-372 | some stored name is listed for both u1 and u2 iff u1 = u2, or one username starts with the other username followed by "_" |
| Storage.SeparatorFreeIsolated | secure_upload_backend/main.py:329-372 | two different usernames without "_" never share a listed name |
| Storage.NoOverwriteAcrossUsers | secure_upload_backend/main.py:329-331 | two different usernames without "_" or "/" never produce the same storage name, for any file names without "/" |
| Storage.UploadKeepsOtherListings | secure_upload_backend/main.py:329-386 | for two different usernames without "_" or "/", an upload of a file name without "/" by one leaves the other's listing unchanged |
| Storage.CrossUserOverwrite | secure_upload_backend/main.py:329-331 | counterexample to the unconditional claim: users "a" and "a_b" write the same storage name, "a_b_c" |
| Storage.CrossUserListing | secure_upload_backend/main.py:370-383 | counterexample: the listing of "a" reports the file "c" of user "a_b", under the name "b_c" |
| Backend.SmokeTest | secure_upload_backend/test_backend.py:8-20 | the smoke script's outcomes: registration succeeds, login gives a bearer token, an upload with no token gets 401, and the upload with the token is accepted for testuser |
| Backend.TwoUserScenario | secure_upload_backend/main.py:255-386 | on an empty directory, alice uploads a 10-byte notes.txt. Her listing is exactly [{notes.txt, 10}], and bob's listing is empty |
| Backend.RegisterThenLogin | secure_upload_backend/main.py:255-307 | from any state in which u is not registered, register(u, p) then login(u, p) yields a bearer token whose claims are exactly sub = u. The gate accepts it at every time in [now, now + 30 minutes) and refuses it at every time from now + 30 minutes on |

## Left out

- Framework plumbing: routing, request models, CORS, the health endpoint and the server entry point. Headers such as WWW-Authenticate are not modelled.
- Configuration and I/O at startup: loading the environment file, generating SECRET_KEY and creating the upload directory. The secret is a constant field of `Server`. The directory is assumed to exist, so the existence check in list_files is not modelled.
- The pbkdf2_sha256 hasher and the HMAC-SHA256/base64url encoding of tokens. They are foreign cryptography, so they are parameters. Token strings that fail to parse are not modelled: a token is a structured record, and a forged or garbled one is one whose signature does not match.
- JWT claim validation beyond `exp`. The library also checks `nbf`, `iat`, `aud` and other claims when present, and this server never issues them. Claims other than `exp` are modelled as strings, so a non-string `sub` is not modelled.
- Decode: the python-jose library raises its expired-token error only when `exp < now - leeway`, with the leeway left at zero, so the program still accepts a token at `now == exp` in whole seconds. The model refuses it there, following RFC 7519 section 4.1.4 (the token must not be accepted on or after its expiry); GetCurrentUser's `now < exp` and the last ensures of RegisterThenLogin share that boundary, one second earlier than the program. Sub-second timedelta parts are not modelled.
- Extraction of the bearer header. A request either carries a token (`Some`) or not (`None`); the missing case is the scheme's 401 "Not authenticated".
- Real file I/O: the open, copy, directory listing and size calls. The directory is a map from name to bytes. Partial writes and write failures are not modelled, and neither is a missing upload file name.
- Path resolution. The source joins the storage name to the upload directory as a path, and it accepts any username and file name. The model takes the joined name as a flat key and does not resolve `/`, `.` or `..`. A name with `/` can alias another user's file (`./bob` writes `bob_f`), leave the directory (`../e`, `/tmp/e`), or fail to open through a missing subdirectory (a 500 in the source, success in the model). Each member below holds on disk only for usernames and file names without `/`:
- Store: the map update is the file written only for names without `/`.
- UploadFile: its new state is `Store` of the old one, so it matches the directory only for a username and file name without `/`; with one, the source may write another entry, write outside the directory, or fail.
- ListingAfterStore: requires `PlainUpload`, because for a username with `/` the upload never appears under that prefix in the directory listing.
- UploadThenListed: requires `PlainUpload` for the same reason; user `./bob` uploads and then lists nothing in the source.
- NoOverwriteAcrossUsers: requires `PlainUpload` for both uploads, because `./bob` and `bob` give different names but the same file.
- UploadKeepsOtherListings: requires `PlainUpload` and a `/`-free other user, because an upload by `./bob` changes the listing of `bob`.
- Name comparison. The model takes two storage names to be the same file exactly when they are equal strings, as on a case-sensitive Linux file system. On a file system that folds case or normalises Unicode (the macOS and Windows defaults), or that also splits at `\`, distinct names can be one file: after user `Bob` uploads `f`, user `bob` uploading `f` opens and truncates `Bob_f`; and user `bob` uploading `F` after `f` replaces the bytes of `bob_f`, which still lists as `f`. Store, UploadFile, ListingAfterStore, UploadThenListed, NoOverwriteAcrossUsers and UploadKeepsOtherListings hold on disk only in a directory that compares names byte for byte.
- Concurrency and async: each endpoint call is one atomic step of the model.
- The hasher's constant-time comparison and its secrecy properties, which cannot be stated over an abstract function.
