/**
 * The `sendMessage` request built for one message: the HTML text of the
 * notification, the JSON object posted, and the endpoint it is posted to.
 */
module Telegram {
  import opened Wrappers
  import Mime

  /** The incoming-envelope emoji (U+1F4E8) and a space, opening every notification. */
  const Envelope: string := "\U{1F4E8} "

  /**
   * The notification text: the envelope, the sender on the first line, the
   * subject in bold on the second, then the body. The fields are inserted
   * verbatim, with no escaping.
   */
  function RenderText(from: string, subject: string, body: string): (t: string)
    ensures |t| == |Envelope| + |from| + |subject| + |body| + 9
    ensures t[..|Envelope|] == Envelope && t[|t| - |body|..] == body
  {
    Envelope + from + "\n<b>" + subject + "</b>\n" + body
  }

  /** Index of the first line feed in `s`, or `|s|` when there is none. */
  function FirstNewline(s: string): (r: nat)
    ensures r <= |s|
    ensures forall k :: 0 <= k < r ==> s[k] != '\n'
    ensures r < |s| ==> s[r] == '\n'
  {
    if s == [] then 0
    else if s[0] == '\n' then 0
    else 1 + FirstNewline(s[1..])
  }

  /** Splits `s` at its first line feed into the line before it and the text after it. */
  function SplitLine(s: string): Option<(string, string)> {
    var i := FirstNewline(s);
    if i == |s| then None else Some((s[..i], s[i + 1..]))
  }

  /** The text between `<b>` and `</b>`, if `line` is exactly so wrapped. */
  function Unbold(line: string): Option<string> {
    if |line| < 7 || line[..3] != "<b>" || line[|line| - 4..] != "</b>" then None
    else Some(line[3..|line| - 4])
  }

  /**
   * Reads a notification text back into sender, subject and body: the
   * sender runs up to the first line feed, the second line must be
   * `<b>…</b>`, and the body is everything after it.
   */
  function ParseText(t: string): Option<(string, string, string)> {
    if |t| < |Envelope| || t[..|Envelope|] != Envelope then None
    else
      match SplitLine(t[|Envelope|..])
      case None => None
      case Some((from, after)) =>
        match SplitLine(after)
        case None => None
        case Some((line, body)) =>
          match Unbold(line)
          case None => None
          case Some(subject) => Some((from, subject, body))
  }

  lemma SplitLineAt(line: string, rest: string)
    requires forall k :: 0 <= k < |line| ==> line[k] != '\n'
    ensures SplitLine(line + "\n" + rest) == Some((line, rest))
  {
    var s := line + "\n" + rest;
    var i := FirstNewline(s);
    assert s[|line|] == '\n';
    assert i == |line|;
    assert s[..i] == line && s[i + 1..] == rest;
  }

  /** The bold subject line is a single line that unwraps to the subject. */
  lemma BoldLine(subject: string)
    requires forall k :: 0 <= k < |subject| ==> subject[k] != '\n'
    ensures var line := "<b>" + subject + "</b>";
      (forall k :: 0 <= k < |line| ==> line[k] != '\n') && Unbold(line) == Some(subject)
  {
    var line := "<b>" + subject + "</b>";
    forall k | 0 <= k < |line| ensures line[k] != '\n' {
      if 3 <= k < 3 + |subject| { assert line[k] == subject[k - 3]; }
    }
    assert line[3..|line| - 4] == subject;
  }

  /**
   * The text keeps all three fields recoverable as long as sender and
   * subject are single lines.
   */
  lemma ParseRenderText(from: string, subject: string, body: string)
    requires forall k :: 0 <= k < |from| ==> from[k] != '\n'
    requires forall k :: 0 <= k < |subject| ==> subject[k] != '\n'
    ensures ParseText(RenderText(from, subject, body)) == Some((from, subject, body))
  {
    var line := "<b>" + subject + "</b>";
    var after := line + "\n" + body;
    var rest := from + "\n" + after;
    assert RenderText(from, subject, body) == Envelope + rest;
    BoldLine(subject);
    SplitLineAt(line, body);
    SplitLineAt(from, after);
    ParseTextEnvelope(rest);
  }

  lemma ParseTextEnvelope(rest: string)
    ensures ParseText(Envelope + rest) == match SplitLine(rest)
      case None => None
      case Some((from, after)) =>
        match SplitLine(after)
        case None => None
        case Some((line, body)) =>
          match Unbold(line)
          case None => None
          case Some(subject) => Some((from, subject, body))
  {
    assert (Envelope + rest)[..|Envelope|] == Envelope;
    assert (Envelope + rest)[|Envelope|..] == rest;
  }

  /**
   * Without that condition the text is ambiguous: a sender containing a
   * line feed and bold markup renders the same as a different message.
   */
  lemma RenderTextAmbiguous()
    ensures RenderText("a", "b", "c\n<b>d</b>\ne") == RenderText("a\n<b>b</b>\nc", "d", "e")
  {
  }

  /** A JSON object whose members are all strings. */
  type JsonObject = map<string, string>

  /** The posted JSON: exactly `chat_id`, `text` and `parse_mode` set to `html`. */
  function Payload(chatId: string, text: string): (p: JsonObject)
    ensures p.Keys == {"chat_id", "text", "parse_mode"}
    ensures p["chat_id"] == chatId && p["text"] == text && p["parse_mode"] == "html"
  {
    map["chat_id" := chatId, "text" := text, "parse_mode" := "html"]
  }

  /** The Bot API endpoint for `sendMessage` with the given bot key. */
  function SendMessageUrl(botKey: string): (u: string)
    ensures |u| == |botKey| + 40
    ensures u[..28] == "https://api.telegram.org/bot" && u[28..28 + |botKey|] == botKey
    ensures u[28 + |botKey|..] == "/sendMessage"
  {
    "https://api.telegram.org/bot" + botKey + "/sendMessage"
  }

  /** One HTTP POST of a JSON body. */
  datatype Request = Request(url: string, payload: JsonObject)

  /** `r` posts an HTML message to chat `chatId` through the bot `botKey`. */
  predicate IsSendMessage(r: Request, chatId: string, botKey: string) {
    r.url == SendMessageUrl(botKey) &&
    r.payload.Keys == {"chat_id", "text", "parse_mode"} &&
    r.payload["chat_id"] == chatId && r.payload["parse_mode"] == "html"
  }

  /** The request `send_to_telegram` posts for `message`. */
  function SendToTelegram(message: Mime.Message, chatId: string, botKey: string): (r: Request)
    ensures IsSendMessage(r, chatId, botKey)
    ensures r.payload["text"] == RenderText(message.from, message.subject, message.body)
  {
    Request(SendMessageUrl(botKey), Payload(chatId, RenderText(message.from, message.subject, message.body)))
  }
}
