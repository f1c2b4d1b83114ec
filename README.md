# Basic-authentication gate for a Cloudflare Pages site

This project models the request middleware of a Cloudflare Pages site
(`authHandling`), which protects every route with HTTP Basic authentication
(section 2 of RFC 7617) against one shared secret. For each request, the
gate does exactly one of these things:

- it throws `PASSWORD secret is not set` when the `PASSWORD` secret is missing or empty;
- it answers 401 `Logged out.` without a `WWW-Authenticate` header on the path `/logout`;
- it answers the 401 challenge `You need to login.` with
  `WWW-Authenticate: Basic realm="myrealm", charset="UTF-8"`. The `charset` parameter is the one in section 2.1 of RFC 7617.
  This happens when the `Authorization` header is missing or empty, or when its credentials are wrong;
- it answers 400 `Malformed authorization header.` when the header is not `Basic <token>`;
- otherwise, it returns the next handler's result unchanged.

The model is pure, like the source. There are four modules:

- `Middleware` holds the gate. `AuthHandling` is the decision chain. `ParseAuthorization` is the header split and the scheme check. `TimingSafeEqual` is the UTF-8 byte comparison. `PromptToLogin` is the challenge response. The module also holds the property lemmas.
- `JsString` models JavaScript's `split` with a one-character separator. It also has its inverse `Join` and the split/join round trips.
- `SubtleCrypto` models the runtime's `crypto.subtle.timingSafeEqual`. It ORs together the XOR of every byte pair with no early exit. The result is proved to be zero exactly when the two buffers are equal.
- `Wrappers` holds `Option`.

The gate calls three runtime services that the model does not define:

- base64 decoding (`Buffer.from(token, "base64").toString()`);
- UTF-8 encoding (`TextEncoder`);
- URL parsing.

The first two are function-valued fields of `Platform`, so every general property holds for any decoder and any encoder; the example lemmas state what they assume of them. The URL's pathname is an input string. `context.next()` is an opaque value of a type parameter, and the gate passes it through.

A well-formed header is characterised without reference to `split`:

- its first six characters are `Basic ` and its seventh is not a space (`WellFormedBasic`);
- its token is the run of non-space characters that starts at the seventh character (`IsBasicToken`).

On these points the model follows the code, which a reader of RFC 7617 might not expect:

- An empty `PASSWORD` counts as missing, because the code tests `!password`.
- An empty `Authorization` header counts as absent and gets the challenge, because the code tests `!authorization`.
- The header is split on single spaces. `Basic  x` has an empty second field, so it is malformed. Fields after the second are ignored, so `Basic abc def` is accepted with the token `abc`.
- The whole decoded token is compared with the password. No `user:password` split is made.
- The comparison is on UTF-8 bytes, not on strings.

## Model

| member | source | states |
|---|---|---|
| Middleware.AuthHandling | cloudflare_pages/functions/_middleware.js:35-70 | Every request ends in one of three ways. It throws exactly the missing-password message. Or it answers with one of the three gate responses (logged out, challenge, malformed). Or it returns the next handler's result unchanged. Only the challenge carries a `WWW-Authenticate` header |
| Middleware.NoPasswordThrows | cloudflare_pages/functions/_middleware.js:39-42 | A missing or empty password makes the gate throw, whatever the path, the header and the platform |
| Middleware.LogoutNeverChallenges | cloudflare_pages/functions/_middleware.js:44-50 | With a password set, `/logout` gets 401 `Logged out.` with no `WWW-Authenticate`, whatever header is sent, valid credentials included |
| Middleware.MissingHeaderChallenges | cloudflare_pages/functions/_middleware.js:52-55 | Off `/logout`, a missing or empty `Authorization` header gets the challenge response |
| Middleware.MalformedHeaderRejected | cloudflare_pages/functions/_middleware.js:56-63 | Off `/logout`, a present header gets 400 if and only if it is not `Basic`, one space and a non-space character |
| Middleware.WrongCredentialsLikeMissing | cloudflare_pages/functions/_middleware.js:65-68 | Take a well-formed header whose decoded token's bytes differ from the password's. It gets the challenge, the same outcome as a request without the header |
| Middleware.ForwardsOnlyAuthenticated | cloudflare_pages/functions/_middleware.js:65-69 | The request is forwarded if and only if all of these hold: the password is set, the path is not `/logout`, the header is well-formed Basic, and the whole decoded token encodes to the password's bytes. The forwarded result is the next handler's own |
| Middleware.PromptToLogin | cloudflare_pages/functions/_middleware.js:25-33 | The challenge is a 401 carrying `Basic realm="myrealm", charset="UTF-8"`. It differs from the logged-out and malformed responses |
| Middleware.TimingSafeEqual | cloudflare_pages/functions/_middleware.js:12-23 | True exactly when the UTF-8 encodings are byte-for-byte equal. False whenever their lengths differ. True on equal strings |
| Middleware.TimingSafeEqualSymmetric | cloudflare_pages/functions/_middleware.js:12-23 | The comparison gives the same answer with its arguments swapped |
| Middleware.ParseAuthorization | cloudflare_pages/functions/_middleware.js:56-63 | The header split and scheme check. An accepted token is non-empty and has no space. Its full characterisation is the contract of `ParseAuthorizationAccepts` |
| Middleware.Truthy | cloudflare_pages/functions/_middleware.js:40-59 | JavaScript `!x` negated, for a string that may be `undefined` or `null`: true exactly for a present, non-empty string. Its contract is stated through `NoPasswordThrows`, `MissingHeaderChallenges` and `MalformedHeaderRejected` |
| Middleware.ParseAuthorizationAccepts | cloudflare_pages/functions/_middleware.js:56-63 | Destructuring `split(" ")` and checking the two fields accepts a header if and only if it is `Basic`, one space and a non-space character. It then yields the maximal run of non-space characters after that space |
| Middleware.BasicTokenUnique | cloudflare_pages/functions/_middleware.js:56 | A header has at most one such token, so the parsed token is determined by the header |
| Middleware.ParseIgnoresLaterFields | cloudflare_pages/functions/_middleware.js:56 | Appending a space and anything to `scheme token` does not change the parse: only the first two fields are read |
| Middleware.ParseBasicToken | cloudflare_pages/functions/_middleware.js:56-63 | `Basic ` followed by a non-empty token without spaces parses to that token |
| Middleware.ParseSchemeOnly | cloudflare_pages/functions/_middleware.js:59 | `Basic` alone has no second field and is malformed |
| Middleware.ParseDoubleSpace | cloudflare_pages/functions/_middleware.js:59 | `Basic  x` has an empty second field and is malformed |
| Middleware.ParseLowerCaseScheme | cloudflare_pages/functions/_middleware.js:59 | `basic x` is malformed: the scheme comparison is case-sensitive |
| Middleware.ParseBearer | cloudflare_pages/functions/_middleware.js:59 | `Bearer abc` is malformed |
| Middleware.ParseThirdField | cloudflare_pages/functions/_middleware.js:56 | `Basic abc def` parses to `abc` |
| Middleware.ExampleSecretForwarded | cloudflare_pages/functions/_middleware.js:65-69 | With secret `secret123`, the header `Basic c2VjcmV0MTIz` is forwarded when the decoder maps it to `secret123` |
| Middleware.ExampleWrongPasswordChallenged | cloudflare_pages/functions/_middleware.js:65-68 | With secret `secret123`, the header `Basic d3Jvbmc=` is challenged when the decoder maps its token to `wrong` and the encoder gives `wrong` 5 bytes and `secret123` 9 bytes, as UTF-8 does |
| Middleware.ExampleOtherRequests | cloudflare_pages/functions/_middleware.js:44-63 | With secret `secret123`, these three requests are answered as follows. The root without a header is challenged. `/logout` is logged out without a challenge. A `Bearer abc` header is malformed |
| JsString.Split | cloudflare_pages/functions/_middleware.js:56 | `split(" ")` gives at least one field. No field contains the separator. The first field is the longest prefix of the string without a separator |
| JsString.JoinSplit | cloudflare_pages/functions/_middleware.js:56 | Joining the fields of a split with the separator gives the original string back |
| JsString.SplitJoin | cloudflare_pages/functions/_middleware.js:56 | Splitting the join of separator-free fields gives those fields back |
| JsString.SplitAtFirstSeparator | cloudflare_pages/functions/_middleware.js:56 | The first separator ends the first field, and the rest of the string is split on its own |
| JsString.SplitNoSeparator | cloudflare_pages/functions/_middleware.js:56 | A string without a separator splits into one field, the string itself |
| JsString.SplitAfterFirstField | cloudflare_pages/functions/_middleware.js:56 | With two or more fields, a separator follows the first field, and the later fields are the split of what comes after it |
| JsString.SplitSingleField | cloudflare_pages/functions/_middleware.js:56 | A single field means the string has no separator and is that field |
| SubtleCrypto.DiffBits | cloudflare_pages/functions/_middleware.js:22 | The OR of the XORs of all byte pairs is zero exactly when two equal-length buffers are equal |
| SubtleCrypto.TimingSafeEqual | cloudflare_pages/functions/_middleware.js:22 | The runtime's comparison of equal-length buffers is true exactly when they are equal |
| SubtleCrypto.DiffBitsSymmetric | cloudflare_pages/functions/_middleware.js:22 | A property of the runtime primitive, not of the gate: the accumulated difference is the same with the buffers swapped |

## Left out

- Timing: the constant-time behaviour of `crypto.subtle.timingSafeEqual` cannot be stated in Dafny. `SubtleCrypto.DiffBits` visits every byte pair, but only its result is specified.
- Base64 decoding (`Buffer.from(..., "base64").toString()`) is an arbitrary function from strings to strings. The runtime's decoder is lenient: it skips invalid characters, accepts URL-safe input and replaces bad UTF-8. That decoder is not part of this model.
- UTF-8 encoding (`TextEncoder`) is an arbitrary function from strings to bytes. It is not assumed injective, since `TextEncoder` turns every lone surrogate into the same replacement bytes. So the gate's comparison is stated on bytes.
- Dafny's `string` is a sequence of Unicode scalar values, while JavaScript strings are UTF-16 code units. A lone surrogate in the password, the header or the decoded token cannot be represented here. No decision of the gate depends on it: the split is on an ASCII space, the comparisons are with ASCII literals, and the encoder is abstract.
- URL parsing and normalisation (`new URL(...)`): the pathname is an input.
- `Response` and `Headers` objects are a datatype with a status, an optional `WWW-Authenticate` value and a body.
- `context.next()` and `async` behaviour: the downstream result is an opaque value, and the model holds it eagerly. The gate is pure, so the only difference is that the source calls the next handler only on the forwarding path.
- `env.PASSWORD` values that are not strings (for example JSON variables) are not modelled. The password is an optional string.
- JavaScript `split` is modelled only for a one-character separator, the only form the gate uses.
- The `onRequest` export (line 72) and the `node:buffer` import (line 1) are platform wiring.
