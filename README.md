# UK vehicle score bot — plate input pipeline

A Telegram bot takes a vehicle registration mark (VRM) typed by a user,
normalises and validates it, builds the address of the vehicle-score page for
it, and remembers plate and address in the user's `user_data`. When the user
presses the "Screenshot" button, the bot captures that page. This project
models the part of `bot.py` that has behaviour of its own. It proves the
properties of that part:

- `normalize_vrm` upper-cases the text, treats `None` as `""` and deletes
  every whitespace run. Module `Vrm` models it as it is written: a scan that
  drops each maximal `\s+` run. It is proved equal to a reference "delete
  each whitespace character" definition. The result has no whitespace and no
  lower-case letter, and normalising twice changes nothing.
- `VRM_RE = ^[A-Z0-9]{1,8}$` is modelled as the regex engine decides it: a
  greedy run of class characters capped at 8, backtracking down to 1, and
  Python's `$`, which also matches just before a final line feed. The pattern
  accepts exactly a valid plate (1 to 8 characters from `A-Z0-9`) or a valid
  plate followed by one `"\n"`. Normalised text holds no line feed, so the
  bot's check is exactly "valid plate".
- `build_url` is modelled with `urlencode`'s `quote_plus` encoding (module
  `Url`). Always-safe characters are kept. A space becomes `+`. Every other
  character becomes the `%XX` escapes of its UTF-8 bytes. Letters and digits
  are unreserved (section 2.3 of RFC 3986). So for a valid plate the address
  is the plain concatenation `BASE + "?registration=" + vrm`, and distinct
  valid plates give distinct addresses. For any input, the part after
  `registration=` holds only form characters. So a plate can never add a
  second parameter or a fragment.
- `handle_plate` and `on_callback` are methods of the class
  `Handlers.UserSession`, whose field `userData` is one user's `user_data`
  dictionary, which that user shares across every chat they write in. The
  replies become an `Outcome` value. A rejected plate leaves
  `user_data` unchanged. An accepted one writes exactly `"vrm"` and `"url"`.
  A capture is requested only for callback data `"shot"` with both entries
  present and non-empty. It uses exactly the stored address. The invariant
  `Consistent` holds from the start and is kept by every handler: plate and
  address are stored together, the plate is valid, and the address is built
  from it.
- Module `Examples` checks the plate from the bot's help text and a
  malformed plate. `Conversations.Conversation` drives one user's session through a
  press before any plate, a rejected plate, an accepted plate and a capture.

Characters are Dafny's Unicode scalar values. Whitespace is the exact set
that Python's `\s` matches in a `str` pattern: `\t`..`\r`, U+001C..U+001F,
space, U+0085, U+00A0, U+1680, U+2000..U+200A, U+2028, U+2029, U+202F,
U+205F and U+3000. Upper-casing is modelled on ASCII only (see below).

Other revisions of the bot accept 2 to 8 characters. This model follows
this `bot.py`, which accepts 1 to 8.

## Model

| member | source | states |
|---|---|---|
| `Vrm.IsSpace` | bot.py:18 | the `\s` class: a whitespace character is neither a lower-case letter nor a plate character |
| `Vrm.UpperChar` | bot.py:18 | upper-casing yields no lower-case letter, keeps whitespace as whitespace, and leaves a non-lower-case character alone |
| `Vrm.Upper` | bot.py:18 | `upper()` keeps the length and upper-cases each character in place |
| `Vrm.RemoveSpace` | bot.py:18 | deleting whitespace yields a string no longer than the input, with no whitespace, made of characters of the input |
| `Vrm.DropSpaceRun` | bot.py:18 | a greedy `\s+` at the start consumes a prefix made only of whitespace, and what is left does not start with whitespace |
| `Vrm.SubSpaceRuns` | bot.py:18 | `re.sub(r"\s+", "", s)` as the engine scans: the result has no whitespace, is no longer than `s`, and is made of characters of `s` |
| `Vrm.SubSpaceRunsIsRemoveSpace` | bot.py:18 | `re.sub(r"\s+", "", s)`, replacing maximal runs, equals deleting every whitespace character |
| `Vrm.RemoveSpaceSkipsSpace` | bot.py:18 | a leading all-whitespace prefix does not affect the result of deleting whitespace |
| `Vrm.NormalizeVrm` | bot.py:17-18 | the normalised plate has no whitespace and no lower-case letter, and is no longer than the text (`None` read as `""`) |
| `Vrm.NormalizeIsRemoveSpace` | bot.py:17-18 | normalising is deleting whitespace from the upper-cased text |
| `Vrm.RemoveSpaceAppend` | bot.py:18 | deleting whitespace distributes over concatenation |
| `Vrm.UpperFixed` | bot.py:18 | upper-casing a string without lower-case letters changes nothing |
| `Vrm.RemoveSpaceFixed` | bot.py:18 | deleting whitespace from a string without whitespace changes nothing |
| `Vrm.NormalizeIdempotent` | bot.py:17-18 | `normalize_vrm(normalize_vrm(t)) == normalize_vrm(t)` |
| `Vrm.RemoveSpaceEmpty` | bot.py:18 | deleting whitespace gives `""` exactly when every character is whitespace |
| `Vrm.NormalizeBlank` | bot.py:17-18 | the normalised plate is `""` exactly when the text is missing, empty or all whitespace |
| `Vrm.ClassRun` | bot.py:15 | the greedy `[A-Z0-9]{1,8}` takes the leading run of class characters, at most 8, and stops only at the cap, the end, or a non-class character |
| `Vrm.EndAt` | bot.py:15 | Python's `$` matches at position `j` iff what is left from `j` is empty or a single line feed |
| `Vrm.Backtrack` | bot.py:15 | backtracking from `k` characters finds a match iff some count from 1 to `k` ends where `$` matches |
| `Vrm.VrmReMatch` | bot.py:74 | `VRM_RE.match(s)` only holds for 1 to 9 characters, all but possibly the last in `A-Z0-9` |
| `Vrm.BacktrackAt` | bot.py:15 | backtracking below the greedy count never finds `$` inside the run, so only the greedy end position decides the match |
| `Vrm.VrmReMatchIff` | bot.py:15 | `VRM_RE.match(s)` holds iff `s` is 1 to 8 characters of `A-Z0-9`, optionally followed by one final line feed |
| `Vrm.VrmReMatchNoNewline` | bot.py:15 | on a string without line feeds the pattern accepts exactly the strings of length 1 to 8 over `A-Z0-9` |
| `Vrm.AcceptsNormalized` | bot.py:73-74 | the bot's check on a normalised text is exactly validity of the plate |
| `Vrm.EmptyRejected` | bot.py:15-18 | `None` and `""` normalise to `""`, which the pattern rejects |
| `Url.Utf8` | bot.py:21 | the UTF-8 encoding that `quote` escapes: 1 to 4 bytes, ASCII as itself, otherwise a lead byte at least 0xC0 and continuation bytes 0x80..0xBF |
| `Url.Utf8RoundTrip` | bot.py:21 | decoding the encoded bytes gives back the code point |
| `Url.HexDigit` | bot.py:21 | an escape digit is an upper-case hexadecimal digit with the given value |
| `Url.PercentByte` | bot.py:21 | a byte escapes to `%` and two safe hexadecimal digits that decode to that byte |
| `Url.PercentBytes` | bot.py:21 | escaping bytes yields three form characters per byte, starting with `%` |
| `Url.QuoteChar` | bot.py:21 | a character is kept iff it is always safe, a space becomes `+`, and anything else becomes escapes starting with `%` |
| `Url.QuotePlus` | bot.py:21 | `quote_plus` yields only form characters and never shortens its input |
| `Url.QuotePlusFixed` | bot.py:21 | `quote_plus(s) == s` iff every character of `s` is always safe |
| `Url.KeyUnchanged` | bot.py:21 | the key `registration` encodes to itself |
| `Url.UrlEncode` | bot.py:21 | `urlencode` of no pairs is empty, and its output holds only form characters and the separators `=` and `&` |
| `Url.UrlEncodeSinglePair` | bot.py:21 | one pair encodes with exactly one `=`, right after the encoded key, and no `&`; split at that `=` it reads back as the encoded key and the encoded value, so the query is one parameter |
| `Url.EncodeUnchangedKey` | bot.py:21 | with a key that encodes to itself, the one-pair query is the key, `=`, and the encoded value |
| `Url.BuildUrl` | bot.py:20-21 | every address is `BASE?registration=` followed by `quote_plus` of the plate: after the prefix it holds only form characters, at least as many as the plate has |
| `Url.BuildUrlOfValid` | bot.py:20-21 | for a valid plate, `build_url(v) == BASE + "?registration=" + v` |
| `Url.BuildUrlInjective` | bot.py:20-21 | distinct valid plates give distinct addresses |
| `Url.BuildUrlEscapes` | bot.py:20-21 | a plate with a character that is not always safe never appears verbatim after the prefix |
| `Handlers.UserSession.HandlePlate` | bot.py:72-80 | an invalid normalised plate gives `Rejected` and leaves `user_data` unchanged; a valid one stores it under `vrm` and its address under `url`, changes no other entry, keeps `Consistent`, and makes it hold |
| `Handlers.UserSession.OnCallback` | bot.py:92-111 | data other than `"shot"` is ignored; `"shot"` requests a capture iff `vrm` and `url` are present and non-empty, with exactly the stored plate and address, and otherwise asks for a plate; on a consistent session the plate is valid, the address is the plain concatenation, and a capture is refused only when no plate was ever stored; `user_data` is not changed |
| `Examples.AcceptedExample` | bot.py:70 | the help text's plate typed as `"vn64 nwg"` normalises to the valid plate `"VN64NWG"` |
| `Examples.RejectedExample` | bot.py:73-76 | `"AB!12"` is unchanged by normalisation and rejected for its `!` |

## Left out

- `Vrm.UpperChar`: upper-cases only `a`..`z` and leaves every other character unchanged. Python's `str.upper()` also maps non-ASCII letters, some to ASCII (`ı` to `I`, `ſ` to `S`) or to several characters (`ß` to `SS`). Full Unicode case mapping tables are outside the model, so the model assumes ASCII letters.
- `take_screenshot` (bot.py:23-67): browser launch, navigation with a 45-second timeout, the cookie-button loop, fixed waits, the screenshot and the closing of browser and context. All of it is calls into the browser-automation library.
- What happens after a capture is requested (bot.py:105-117): the progress message, the photo reply with caption, and the error message when capture fails. They are chat replies. `CaptureRequested` marks the point where the model stops.
- The output path `/tmp/{vrm}_{ts}.png` (bot.py:107-108). It depends on the wall clock and the file system.
- The `start` command reply, the inline keyboard, the text of every reply, `q.answer()`, and `main` wiring (bot.py:69-70, 82-90, 94, 119-127). These are chat-framework calls.
- `BOT_TOKEN` read from the environment (bot.py:12). This is process configuration.
- web.py is not part of this model. It is a health route and a `PORT` read from the environment.
- Keying by user is not modelled. The framework hands each update the `user_data` of the user who sent it, so in a group chat a user who presses another user's "Screenshot" button reads their own `user_data` and gets "send the plate first" or their own plate. One `UserSession` models one user's dictionary.
- Concurrency between updates is not modelled. Each handler runs to completion on one user's dictionary.
- Injectivity of `quote_plus` over all strings is not proved. Only valid plates reach `build_url` in the bot.
