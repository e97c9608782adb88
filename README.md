# tginbox core, modelled in Dafny

tginbox is an SMTP server that forwards incoming mail as Telegram
notifications. The model covers the logic in `src/lib.rs`:

- **Session** (`session.dfy`): the per-connection handler `MyHandler`.
  It keeps the buffered text pieces (`mime`, a `seq<string>`) and the account
  list. `mail` appends a synthesized `From:` line. `data` appends the UTF-8
  text of a DATA chunk. `data_end` joins the pieces into one document, hands
  it off and answers OK. The spawned task (`Deliver`) builds the message,
  routes it and produces the `sendMessage` request.
- **Utf8** (`utf8.dfy`): `String::from_utf8`. It decodes exactly the
  well-formed sequences of table 3-7 of the Unicode Standard (section 3.9),
  which are those of section 4 of RFC 3629. An encoder is given as its
  inverse, and both round trips are proved.
- **Router** (`router.dfy`): `find_account`. It returns the first account
  whose address equals the recipient, else the first account, else nothing.
- **Mime** (`mime.dfy`): `Message::new`. The MIME parser and the
  HTML-to-text converter are parameters whose behaviour is left open.
- **Telegram** (`telegram.dfy`): the notification text, the JSON object and
  the endpoint URL of `send_to_telegram`. The text is shown to be readable
  back into its fields (`ParseText`) when sender and subject are single lines.

Three behaviours of the code are easy to misread:
- `mail` appends the `From:` line after whatever is already buffered. It
  does not prepend it.
- `data_end` does not clear the buffer. A second mail transaction on the
  same connection therefore produces a document that begins with the whole
  first one (`Session.TwoTransactions`).
- An invalid UTF-8 chunk makes `data` panic (`unwrap`). It is not rejected
  on its own: the connection ends. The model returns `Panic`, stores
  nothing, and sets `panicked`, after which no callback may be made.

## Model

| member | source | states |
|---|---|---|
| `Utf8.Decode` | src/lib.rs:119 | decoding succeeds only on well-formed UTF-8 and never yields more characters than bytes |
| `Utf8.EncodeChar` | src/lib.rs:119 | the reference encoding of one character takes 1 to 4 bytes, one byte exactly for ASCII |
| `Utf8.DecodeEncode` | src/lib.rs:119 | every string is decoded back from its UTF-8 encoding |
| `Utf8.EncodeDecode` | src/lib.rs:119 | a byte sequence that decodes is exactly the encoding of its text, so decoding loses nothing |
| `Utf8.DecodeAppend` | src/lib.rs:119 | two decodable chunks decode, concatenated, to the concatenation of their texts |
| `Utf8.SplitCharacterRejected` | src/lib.rs:119 | for every non-ASCII character and every split point inside its encoding, both parts are undecodable although the whole encoding decodes |
| `Router.FindMatch` | src/lib.rs:194 | a found account is in the list and has exactly the address; none found means no account has it |
| `Router.FindAccount` | src/lib.rs:189-203 | `None` exactly for an empty list; otherwise an account of the list, and the first one whenever its address does not match |
| `Router.FindAccountFirstMatch` | src/lib.rs:194-199 | the first account whose address matches is the one returned |
| `Router.FindAccountIsFirst` | src/lib.rs:194-199 | when some address matches, the returned account is the first matching one in list order |
| `Router.FindAccountFallback` | src/lib.rs:201-202 | with no matching address, a non-empty list yields its first account |
| `Router.ExactMatchOnly` | src/lib.rs:194 | an address differing only in letter case does not match and falls back to the first account |
| `Mime.NewMessage` | src/lib.rs:18-42 | a rejected document gives four empty fields; each absent header gives `""`; a missing body is converted from `""` |
| `Mime.EmptyRecipientIff` | src/lib.rs:34-35 | the recipient is empty exactly when parsing fails or the `To` header is absent or empty |
| `Telegram.RenderText` | src/lib.rs:164-169 | the text opens with the envelope emoji and a space, ends with the body, and is 9 characters longer than envelope plus fields |
| `Telegram.ParseRenderText` | src/lib.rs:164-169 | when sender and subject contain no line feed, sender, subject and body are read back unchanged from the text |
| `Telegram.RenderTextAmbiguous` | src/lib.rs:164-169 | with a line feed and bold markup in the sender, two different messages render to the same text |
| `Telegram.Payload` | src/lib.rs:172-176 | the JSON object has exactly the keys `chat_id`, `text` and `parse_mode`, with `parse_mode` set to `html` |
| `Telegram.SendMessageUrl` | src/lib.rs:158-161 | the URL is the Bot API base, the bot key verbatim, then `/sendMessage` |
| `Telegram.SendToTelegram` | src/lib.rs:151-176 | the request posts the rendered text of the message to the given chat through the given bot |
| `Session.JoinAppend` | src/lib.rs:125 | joining a split list of pieces is joining each part and concatenating the results |
| `Session.FromLine` | src/lib.rs:109 | the synthesized line is `From: `, the envelope sender verbatim, and a line feed |
| `Session.MyHandler.constructor` | src/lib.rs:89-98 | a new handler has an empty buffer and the given accounts |
| `Session.MyHandler.Mail` | src/lib.rs:102-112 | appends one `From:` line to the buffer and answers OK |
| `Session.MyHandler.Data` | src/lib.rs:114-121 | appends the chunk's UTF-8 text as one piece; on invalid UTF-8 panics with the buffer unchanged, after which the handler takes no further callback |
| `Session.MyHandler.DataEnd` | src/lib.rs:123-148 | hands off the in-order concatenation of all pieces with the accounts, leaves the buffer as it was, and answers OK |
| `Session.JoinDecodesStream` | src/lib.rs:114-125 | when every chunk is UTF-8, the joined document is the decoding of the whole byte stream |
| `Session.TwoTransactions` | src/lib.rs:102-148 | the document of a second transaction on one connection is the first document followed by the new `From:` line and data; a chunk that is not UTF-8 ends the connection and no later document is handed off |
| `Session.Deliver` | src/lib.rs:128-145 | no request exactly when the account list is empty; otherwise a `sendMessage` request to the chat and bot of an account of the list, carrying the rendered text of the message |
| `Session.DeliverToRecipient` | src/lib.rs:130-142 | the request goes to the first account whose address is the message's recipient and carries the rendered message |
| `Session.DeliverFallback` | src/lib.rs:133-142 | when no account's address is the recipient, the rendered message goes to the chat and bot of the first account |
| `Session.DeliverUnparseable` | src/lib.rs:21-29 | a rejected document still yields a request, with text `emoji, space, "\n<b></b>\n"`, to the first account when no address is empty |
| `Session.DeliverWithoutRecipient` | src/lib.rs:34-35 | a message without `To` goes to the first account when no account has an empty address |

## Left out

- The HTTP post of the request (src/lib.rs:179-184): network I/O. `Deliver` ends at the request value. A transport error makes the spawned task panic, which does not affect the SMTP reply. An error status from Telegram (for example a 400 because a `<` in the sender breaks the `html` parse mode) is ignored, and the notification is lost without notice. Neither is modelled.
- The tokio runtime handle and `spawn` (src/lib.rs:85, 128-145): concurrency. The hand-off is the `Job` value that `DataEnd` returns.
- `mailparse::parse_mail`, `get_first_value`, `get_body` and `nanohtml2text::html2text`: foreign libraries. They are the `Parser` and `HtmlToText` parameters of `Mime.NewMessage`.
- The JSON text itself: `serde_json` serialization and string escaping are foreign. The payload is modelled as a map from keys to string values.
- The `OK` reply is the SMTP library's constant, which is not part of this model. `Session.OK`, 250 "OK", stands in for it.
- The unused `ip` and `domain` parameters of `mail`: they do not affect the behaviour.
- `src/main.rs` (CLI, configuration loading, daemonizing, TLS, server start): process plumbing and I/O.
- `SmtpServer`, `ConfigFile` and `Cli` (src/lib.rs:52-79): plain records read by `main.rs` only.
