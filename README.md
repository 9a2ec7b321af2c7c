# EmpathyGuard page logic in Dafny

This project models the logic inside the EmpathyGuard page (`page.jsx`). The page
encrypts a short message under a password, stores it through a backend, and later
fetches and decrypts it by its id. Around that it scores password strength, shows
an emoji and a colour for each detected emotion, and keeps a ten-entry history.

Modules, one per concern of the page:

- `JsBuiltins` (`js_builtins.dfy`): JavaScript strings as sequences of UTF-16 code
  units, `Uint8Array` bytes, and the built-ins the page relies on: clamped
  `slice`/`substring`, `trim`, ASCII `toLowerCase`, and UTF-16 well-formedness.
- `Envelope` (`envelope.dfy`): the byte layout salt(16) ‖ iv(12) ‖ AES-GCM output.
  `Pack` fills a fresh array with three `set` writes. `Split` cuts the array at the
  fixed offsets 0, 16 and 28.
- `WebPlatform` (`web_platform.dfy`): the browser calls the page cannot see into.
  These are `TextEncoder`/`TextDecoder`, PBKDF2 `deriveKey`, AES-GCM
  `encrypt`/`decrypt` and `btoa`/`atob`. They are fields of a `Platform` value. The
  ghost predicate `Sound` lists what the proofs assume about them. `Witness` is a
  concrete platform that meets `Sound`, so the assumptions are consistent.
- `MessageCrypto` (`message_crypto.dfy`): `encryptMessage` (a method whose salt
  and IV are parameters), `decryptMessage`, the end-to-end round trip, and the
  toast that `handleDecrypt` shows on failure.
- `PasswordStrength` (`password_strength.dfy`): `getPasswordStrength`. A method
  adds up the score step by step. It is proved equal to a declarative sum over a
  table of criteria.
- `EmotionLabels` (`emotion_labels.dfy`): `getEmotionEmoji` and `getEmotionColor`.
- `History` (`history.dfy`): the message preview and the capped history list.
- `InputGuards` (`input_guards.dfy`): the trim checks in the two handlers and the
  action button's `disabled` expression.

`decryptMessage` makes no length check: a short blob gives short or empty slices,
and only `atob` or the AES-GCM call can reject it (`Split`, `ShortBlobRejected`).

## Model

| member | source | states |
|---|---|---|
| `JsBuiltins.TrimStart` | page.jsx:249 | the result is a suffix of the input; everything removed is whitespace; the result does not start with whitespace |
| `JsBuiltins.TrimEnd` | page.jsx:249 | the result is a prefix of the input; everything removed is whitespace; the result does not end with whitespace |
| `JsBuiltins.Trim` | page.jsx:249 | `trim` keeps one contiguous middle slice that neither starts nor ends with whitespace, and removes only whitespace |
| `JsBuiltins.ClampedSlice` | page.jsx:75-77 | `slice`/`substring` clamp both bounds to the length: the result has length max(0, min(end, n) − min(begin, n)), element k is `s[begin + k]`, and in-range bounds give the ordinary slice |
| `JsBuiltins.AsciiLower` | page.jsx:124 | same length; each upper-case ASCII letter becomes its lower-case form, every other code unit is unchanged, and no upper-case letter remains |
| `JsBuiltins.BlankIffAllWhitespace` | page.jsx:331 | `!s.trim()` holds exactly when every code unit of `s` is whitespace |
| `JsBuiltins.AsciiLowerIdempotent` | page.jsx:124 | lower-casing twice equals lower-casing once, and no upper-case ASCII letter remains |
| `JsBuiltins.StrWellFormed` | page.jsx:311 | every string literal of the page is well-formed UTF-16 |
| `Envelope.SetAt` | page.jsx:58-60 | `set(src, offset)` writes `src` at `offset..offset+len` and leaves every other element unchanged |
| `Envelope.Pack` | page.jsx:55-60 | the fresh array holds exactly salt ‖ iv ‖ encrypted, so every byte comes from one of the three parts and none keeps its zero fill |
| `Envelope.PackedLayout` | page.jsx:55-60 | the packed length is the sum of the part lengths; the salt sits at 0, the IV at `salt.length`, the ciphertext at `salt.length + iv.length` |
| `Envelope.SplitOfPack` | page.jsx:75-77 | with a 16-byte salt and a 12-byte IV, `slice(0,16)`, `slice(16,28)` and `slice(28)` give back exactly the salt, IV and ciphertext |
| `Envelope.SplitOfPackIff` | page.jsx:55-60 | for a non-empty ciphertext, split recovers the packed parts if and only if the salt has 16 bytes and the IV 12 |
| `Envelope.Split` | page.jsx:75-77 | for every blob, short ones included, the three slices partition it; the salt has min(n, 16) bytes, the IV min(n, 28) − min(n, 16), the ciphertext the rest |
| `WebPlatform.SoundIsSatisfiable` | page.jsx:49-53 | the assumptions about the foreign calls can all hold together |
| `MessageCrypto.BinaryString` | page.jsx:62 | `String.fromCharCode(...bytes)` gives one code unit per byte, all below 256 as `btoa` needs, and reading them back with `charCodeAt` returns the bytes |
| `MessageCrypto.ByteValues` | page.jsx:69-73 | `new Uint8Array(s.split("").map(c => c.charCodeAt(0)))` has one byte per code unit, equal to it whenever it is below 256 |
| `MessageCrypto.EncryptMessage` | page.jsx:22-63 | the base64 result encodes salt ‖ iv ‖ AES-GCM(PBKDF2(password, salt), iv, UTF-8(text)) |
| `MessageCrypto.DecryptMessage` | page.jsx:65-107 | decryption fails with an invalid-character error exactly when `atob` rejects the input; no length check comes before the cipher |
| `MessageCrypto.KeyRecomputedOnDecrypt` | page.jsx:35-98 | the encrypt-side request (lines 35-46) and the decrypt-side request (lines 87-98) both ask for PBKDF2/SHA-256/100000 iterations/256-bit AES-GCM; the key decryption derives from the stored salt is the key encryption used |
| `MessageCrypto.KeyLength` | page.jsx:43 | the derived key has 32 bytes |
| `MessageCrypto.SealedLength` | page.jsx:55-57 | the decoded envelope holds 16 + 12 + UTF-8 length + 16 bytes |
| `MessageCrypto.RoundTrip` | page.jsx:100-106 | decrypting an encrypted well-formed text with the same password returns that text, less a leading byte order mark that `TextDecoder` drops; text not starting with U+FEFF comes back unchanged |
| `MessageCrypto.DecryptToast` | page.jsx:366-370 | the failure toast is never empty; it reads "Incorrect password" exactly for an `OperationError` (or an error carrying that very message); any other error shows its own message when that is non-empty, and otherwise "Failed to decrypt message" |
| `MessageCrypto.ThrownBy` | page.jsx:69-104 | the error name is `OperationError` exactly when the cipher rejected the input; the message is the browser's |
| `MessageCrypto.ShortBlobRejected` | page.jsx:75-104 | every decoded blob under 44 bytes fails with `OperationError` and shows the incorrect-password toast |
| `MessageCrypto.LeadingBomIsDropped` | page.jsx:67-106 | a message starting with U+FEFF passes the encrypt guard but decrypts without its first code unit |
| `MessageCrypto.DecryptFailureToast` | page.jsx:364-370 | every failure that reaches the cipher, from a wrong password or from tampering, shows the same toast; only a base64 failure is told apart |
| `PasswordStrength.Matches` | page.jsx:132-134 | a one-class regex `test` is true exactly when some code unit is in the class |
| `PasswordStrength.GetPasswordStrength` | page.jsx:128-143 | the step-by-step score, classified, equals the banding of the declarative sum of satisfied criteria |
| `PasswordStrength.ScoreIsSumOfBonuses` | page.jsx:129-134 | the score is 25 + 25 + 25 + 15 + 10 over the satisfied criteria; it lies in 0..100; the 12-unit bonus implies the 8-unit one |
| `PasswordStrength.Classify` | page.jsx:136-142 | Weak iff score ≤ 25, Fair iff 25 < score ≤ 50, Good iff 50 < score ≤ 75, Strong iff score > 75; the percentage is the score, or 100 for Strong; red, amber, then green |
| `PasswordStrength.ClassifyMonotone` | page.jsx:136-142 | a higher score never gives a lower band or a lower percentage |
| `PasswordStrength.StrongIff` | page.jsx:129-142 | Strong iff at least 12 code units, both letter cases, and a digit or a symbol |
| `PasswordStrength.ShortIsAtMostFair` | page.jsx:129-138 | under 8 code units a password rates Weak or Fair |
| `PasswordStrength.FullScoreIff` | page.jsx:129-134 | the score is 100 iff all five criteria hold |
| `EmotionLabels.CaseInsensitive` | page.jsx:124 | the emoji and the colour of a label equal those of its lower-case form |
| `EmotionLabels.EmojiFor` | page.jsx:111-124 | a label in the table (after lower-casing) gets its entry; the default emoji is shown exactly for labels outside the table |
| `EmotionLabels.ColorFor` | page.jsx:147-160 | a label in the table gets its entry; the default colour is shown exactly for labels outside the table and for "disgust" |
| `EmotionLabels.TablesShareLabels` | page.jsx:147-159 | the emoji table and the colour table have the same keys |
| `EmotionLabels.ElevenLabels` | page.jsx:111-123 | the table has eleven distinct labels |
| `EmotionLabels.LabelsAreLowerCase` | page.jsx:111-124 | every label is lower case, so the lookup finds its own entry |
| `History.Preview` | page.jsx:311 | a message of at most 50 units is its own preview; a longer one gives its first 50 units plus "..."; no preview exceeds 53 |
| `History.PreviewMaySplitPair` | page.jsx:311 | when unit 50 of a longer message is a high surrogate, the preview is not well-formed UTF-16 |
| `History.PreviewWellFormedIff` | page.jsx:311 | for a well-formed message, the preview is well-formed exactly unless unit 50 of a longer message is a high surrogate |
| `History.NewestEntryPreview` | page.jsx:306-314 | after an encryption the newest history entry carries the stored id, emotions, scores and timestamp, and the preview of the message, which is at most 53 units |
| `History.AddToHistory` | page.jsx:314 | the new item is first, the old entries follow in order, and the length is min(old + 1, 10) |
| `History.ReplayKeepsNewest` | page.jsx:314 | after any sequence of updates the history is the first ten of (newest first ++ previous history) |
| `History.HistoryOfFreshStart` | page.jsx:314 | from an empty start the history is the last min(n, 10) items, newest first |
| `InputGuards.ButtonDisabled` | page.jsx:554-559 | the button is disabled iff loading, or the handler for the current mode would reject its input |
| `InputGuards.EncryptGuard` | page.jsx:249-252 | encryption proceeds iff the message and the password each have a non-whitespace code unit; otherwise the fixed toast |
| `InputGuards.DecryptGuard` | page.jsx:331-334 | decryption proceeds iff the message id and the password each have a non-whitespace code unit; otherwise the fixed toast |

## Left out

- Inside the foreign calls, page.jsx:26-53 and 79-104. PBKDF2, AES-GCM, `importKey`/`deriveKey`, UTF-8 and base64 are fields of `Platform`, and `Sound` states what is assumed of them. Key usages (`["encrypt"]` versus `["decrypt"]`) are not modelled because they do not affect the key bytes.
- `crypto.getRandomValues`, page.jsx:34 and 48: entropy. The salt and IV are parameters of `EncryptMessage`.
- `RoundTrip`: returns the text only up to a leading U+FEFF. A default `TextDecoder` (`ignoreBOM: false`) strips that byte order mark, so such a message comes back one code unit shorter; `LeadingBomIsDropped` shows it for a concrete message.
- Tamper detection and wrong-password rejection: these hold only with overwhelming probability under AES-GCM's security. No functional assumption can state them, so only the return-the-plaintext direction (`RoundTrip`) is proved.
- `String.fromCharCode(...combined)`: an engine may throw a `RangeError` when the spread has too many arguments, so a very large message may fail. The engine limit is not modelled.
- `Envelope.SetAt`: requires the source to fit. `TypedArray.set` throws a `RangeError` otherwise, and `Pack` never reaches that case.
- The `fetch` calls to `/api/detect-emotion` and `/api/messages`, page.jsx:263-304 and 344-353: network I/O to backends. The 404 and fetch-failure errors enter `DecryptToast` only as generic thrown errors.
- `localStorage` and JSON parsing, page.jsx:230-244: persistence.
- React state, hooks, rendering, toasts, clipboard and timers; `async`/`await` ordering.
- `Math.round(confidence * 100)`, page.jsx:172: floating point. Confidence scores are carried as opaque `real`s.
- `toLocaleDateString`, page.jsx:683: locale formatting.
- `toLowerCase` beyond ASCII: no key contains a letter that a non-ASCII character lower-cases to, but the model does not prove that.
- Object-prototype keys such as `"constructor"`: `emojiMap[key]` would find inherited members, which is not intended behaviour.
- The emoji strings: they are mis-decoded in the file, so they are opaque constructors of `Emoji`.
- `JsBuiltins.Str`: covers literals in the Basic Multilingual Plane, which is all the modelled code uses.
